// What the archive writer writes is what the archive reader lists, and what any listing says
// about the file it was read from.
module ArchiveTheorems {
  import opened Arithmetic
  import opened Bytes
  import opened Options
  import opened ZipFormat
  import opened ArchiveWriter
  import opened ArchiveReader

  // ---------- what an accepted file looks like ----------

  ghost predicate IsCentral(file: seq<byte>, offset: nat, next: nat) {
    && offset + CENTRAL_SIZE <= |file|
    && var h := CentralHeader.Decode(file[offset..offset + CENTRAL_SIZE]);
    && h.signature == ZIP_CENTRAL_DIRECTORY_HEADER
    && next == offset + CentralLength(h)
    && next <= |file|
  }

  // Entry `e` has a local header in front of its data that carries its name, its data starts
  // no later than the central record at `centralOffset` and ends, counted modulo 2^64, no
  // later than that.
  ghost predicate Located(file: seq<byte>, centralOffset: nat, localOffset: nat, e: Entry) {
    && localOffset + LOCAL_SIZE <= |file|
    && var h := LocalHeader.Decode(file[localOffset..localOffset + LOCAL_SIZE]);
    && h.signature == ZIP_LOCAL_HEADER
    && e.offset == localOffset + LOCAL_SIZE + h.nameLength + h.extraLength <= |file|
    && var name := file[localOffset + LOCAL_SIZE..localOffset + LOCAL_SIZE + h.nameLength];
    && Storable(name)
    && e.name == Backslashed(name)
    && (|file| < TWO64 ==> e.offset <= centralOffset)
    && Add64(e.offset, e.len) <= centralOffset
  }

  // The names an archive can list.
  predicate Storable(name: Name) {
    !BadName(name) && !IsDirectory(name) && |name| < 0x1_0000
  }

  // One central record adds at most one entry.
  lemma FileRecordListed(z: Zlib, file: seq<byte>, centralOffset: nat, central: CentralHeader, r: Listing)
    returns (localOffset: nat)
    requires FileRecord(z, file, centralOffset, central, r).Some?
    ensures var n := FileRecord(z, file, centralOffset, central, r).value;
            || n.entries == r.entries
            || (|n.entries| > 0 && n.entries == r.entries + [n.entries[|n.entries| - 1]] &&
                Located(file, centralOffset, localOffset, n.entries[|n.entries| - 1]))
  {
    hide Extras, Mismatch, BadFlags, ListName, LocalPart, LocalHeader.Decode, CentralHeader.Decode, Replace, BadName,
      Located;
    var centralBuf := ReadAt(file, centralOffset + CENTRAL_SIZE, central.nameLength + central.extraLength
      + central.commentLength).value;
    var (sizes, log) := Extras(centralBuf[central.nameLength..central.nameLength + central.extraLength],
                               Sizes(central.uncompressedSize, central.compressedSize, central.offset,
                                 central.diskNumber), r.log).value;
    localOffset := sizes.offset;
    var (local, localBuf) := LocalPart(file, centralOffset, localOffset).value;
    LocalPartLength(file, centralOffset, localOffset);
    var name := localBuf[..local.nameLength];
    var (localSizes, log1) := Extras(localBuf[local.nameLength..],
      Sizes(local.uncompressedSize, local.compressedSize, 0, 0), log).value;
    var log2 := if Mismatch(local, localSizes, localBuf, central, sizes, centralBuf) then log1 + [HeaderMismatch]
      else log1;
    var dataOffset := localOffset + local.nameLength + local.extraLength + LOCAL_SIZE;
    ListNameListed(z, file, central, name, dataOffset, sizes.uncompressed, Listing(r.entries, log2));
    if !IsDirectory(name) {
      EntryLocated(file, centralOffset, localOffset, Entry(Backslashed(name), dataOffset, sizes.uncompressed));
    }
  }

  // The entry of a local header that has been read.
  lemma EntryLocated(file: seq<byte>, centralOffset: nat, localOffset: nat, e: Entry)
    requires LocalPart(file, centralOffset, localOffset).Some?
    requires var (local, buf) := LocalPart(file, centralOffset, localOffset).value;
             && local.nameLength <= |buf| && !BadName(buf[..local.nameLength]) && !IsDirectory(buf[..local.nameLength])
             && e.name == Backslashed(buf[..local.nameLength])
             && e.offset == localOffset + local.nameLength + local.extraLength + LOCAL_SIZE
    requires Add64(e.offset, e.len) <= centralOffset
    ensures Located(file, centralOffset, localOffset, e)
  {
    hide LocalHeader.Decode, Replace, BadName;
    var (local, localBuf) := LocalPart(file, centralOffset, localOffset).value;
    LocalNameShort(file[localOffset..localOffset + LOCAL_SIZE]);
    assert localBuf[..local.nameLength]
        == file[localOffset + LOCAL_SIZE..localOffset + LOCAL_SIZE + local.nameLength];
  }

  lemma ListNameListed(z: Zlib, file: seq<byte>, central: CentralHeader, name: Name, dataOffset: nat, len: nat,
      r: Listing)
    requires ListName(z, file, central, name, dataOffset, len, r).Some?
    ensures !BadName(name)
    ensures ListName(z, file, central, name, dataOffset, len, r).value.entries ==
            if IsDirectory(name) then r.entries else r.entries + [Entry(Backslashed(name), dataOffset, len)]
  {
    hide BadName, CrcAt, Replace;
  }

  // The length of a name is a 16-bit field.
  lemma LocalNameShort(b: seq<byte>)
    requires |b| == LOCAL_SIZE
    ensures LocalHeader.Decode(b).nameLength < 0x1_0000
  {
    Ranges();
    FromLEBounded(b[4..][2..][2..][2..][2..][2..][4..][4..][4..][..2]);
  }

  // Central records start at starts[0], starts[1], ... and each ends where the next starts.
  ghost predicate Tile(file: seq<byte>, starts: seq<nat>) {
    starts != [] && forall i {:trigger starts[i]} :: 0 <= i < |starts| - 1 ==> IsCentral(file, starts[i], starts[i + 1])
  }

  // The entries `added` belong to the central records at the offsets `ats`, each to one of
  // its own and in order; their local headers are at the offsets `locals`.
  ghost predicate Belong(file: seq<byte>, starts: seq<nat>, ats: seq<nat>, locals: seq<nat>, added: seq<Entry>)
    requires starts != []
  {
    && |ats| == |locals| == |added|
    && (forall j :: 0 <= j < |ats| ==> ats[j] in starts[..|starts| - 1])
    && (forall j :: 0 <= j < |ats| ==> starts[0] <= ats[j])
    && (forall j, k :: 0 <= j < k < |ats| ==> ats[j] < ats[k])
    && (forall j :: 0 <= j < |ats| ==> Located(file, ats[j], locals[j], added[j]))
  }

  // In an accepted file exactly `count` central records tile the declared directory with
  // nothing left over.  Every entry that is listed belongs to a record of its own, in order.
  lemma {:induction false} CentralTiles(z: Zlib, file: seq<byte>, offset: nat, count: nat, length: nat, r: Listing)
    returns (starts: seq<nat>, ats: seq<nat>, locals: seq<nat>)
    requires Central(z, file, offset, count, length, r).Some?
    ensures |starts| == count + 1 && starts[0] == offset && starts[count] == offset + length
    ensures Tile(file, starts)
    ensures var entries := Central(z, file, offset, count, length, r).value.entries;
            r.entries <= entries && Belong(file, starts, ats, locals, entries[|r.entries|..])
    decreases count
  {
    hide *;
    if count == 0 {
      starts, ats, locals := [offset], [], [];
      NoneLeft(z, file, offset, length, r);
    } else {
      var record, next := FirstIsCentral(z, file, offset, count, length, r);
      var len := CentralLength(record);
      var local := FileRecordListed(z, file, offset, record, r);
      starts, ats, locals := CentralTiles(z, file, offset + len, count - 1, length - len, next);
      var entries := Central(z, file, offset, count, length, r).value.entries;
      TileCons(file, offset, starts);
      if next.entries == r.entries {
        BelongSkip(file, offset, starts, ats, locals, entries[|r.entries|..]);
      } else {
        var e := next.entries[|next.entries| - 1];
        BelongCons(file, offset, starts, ats, locals, entries[|next.entries|..], local, e);
        assert entries[..|next.entries|] == next.entries;
        assert entries[|r.entries|..] == [e] + entries[|next.entries|..];
        ats, locals := [offset] + ats, [local] + locals;
      }
      starts := [offset] + starts;
    }
  }

  lemma NoneLeft(z: Zlib, file: seq<byte>, offset: nat, length: nat, r: Listing)
    requires Central(z, file, offset, 0, length, r).Some?
    ensures length == 0 && Central(z, file, offset, 0, length, r).value == r
    ensures r.entries[|r.entries|..] == []
    ensures Tile(file, [offset]) && Belong(file, [offset], [], [], [])
  {
  }

  // A central record reaches beyond its own offset, up to the next one.
  lemma TileCons(file: seq<byte>, offset: nat, starts: seq<nat>)
    requires starts != [] && Tile(file, starts) && IsCentral(file, offset, starts[0])
    ensures Tile(file, [offset] + starts)
  {
    hide IsCentral;
    var all := [offset] + starts;
    forall i {:trigger all[i]} | 0 <= i < |all| - 1 ensures IsCentral(file, all[i], all[i + 1]) {
      assert i == 0 || (all[i] == starts[i - 1] && all[i + 1] == starts[i]);
    }
  }

  lemma BelongSkip(file: seq<byte>, offset: nat, starts: seq<nat>, ats: seq<nat>, locals: seq<nat>, added: seq<Entry>)
    requires starts != [] && offset <= starts[0] && Belong(file, starts, ats, locals, added)
    ensures Belong(file, [offset] + starts, ats, locals, added)
  {
    hide Located;
    var all := [offset] + starts;
    assert all[..|all| - 1] == [offset] + starts[..|starts| - 1];
  }

  lemma BelongCons(file: seq<byte>, offset: nat, starts: seq<nat>, ats: seq<nat>, locals: seq<nat>, added: seq<Entry>,
      local: nat, e: Entry)
    requires starts != [] && offset < starts[0] && Belong(file, starts, ats, locals, added)
    requires Located(file, offset, local, e)
    ensures Belong(file, [offset] + starts, [offset] + ats, [local] + locals, [e] + added)
  {
    hide Located;
    var all := [offset] + starts;
    assert all[..|all| - 1] == [offset] + starts[..|starts| - 1];
    var ats1 := [offset] + ats;
    forall j | 0 <= j < |ats1| ensures Located(file, ats1[j], ([local] + locals)[j], ([e] + added)[j]) {
      assert j == 0 || ats1[j] == ats[j - 1];
    }
    forall j, k | 0 <= j < k < |ats1| ensures ats1[j] < ats1[k] {
      assert ats1[k] == ats[k - 1] && (j == 0 || ats1[j] == ats[j - 1]);
    }
  }

  // One unfolding of Central.
  lemma FirstIsCentral(z: Zlib, file: seq<byte>, offset: nat, count: nat, length: nat, r: Listing)
    returns (record: CentralHeader, next: Listing)
    requires count > 0 && Central(z, file, offset, count, length, r).Some?
    ensures IsCentral(file, offset, offset + CentralLength(record)) && 0 < CentralLength(record) <= length
    ensures FileRecord(z, file, offset, record, r) == Some(next)
    ensures Central(z, file, offset, count, length, r) ==
            Central(z, file, offset + CentralLength(record), count - 1, length - CentralLength(record), next)
  {
    hide FileRecord, CentralHeader.Decode;
    record := CentralHeader.Decode(ReadAt(file, offset, CENTRAL_SIZE).value);
    next := FileRecord(z, file, offset, record, r).value;
    CentralReadable(z, file, offset, record, r);
  }

  lemma CentralReadable(z: Zlib, file: seq<byte>, offset: nat, record: CentralHeader, r: Listing)
    requires FileRecord(z, file, offset, record, r).Some?
    ensures offset + CentralLength(record) <= |file|
  {
    hide Extras, LocalPart, ListName, Mismatch, BadFlags;
  }

  // The end record that an accepted file is listed from: its comment fills the rest of the
  // file.
  lemma {:induction false} ScanFinds(z: Zlib, file: seq<byte>, i: nat) returns (pos: nat)
    requires Scan(z, file, i).Some?
    ensures pos + END_SIZE <= |file|
    ensures var record := EndRecord.Decode(file[pos..pos + END_SIZE]);
            && record.signature == ZIP_END_RECORD
            && pos + END_SIZE + record.commentLength == |file|
            && Scan(z, file, i) == FromEnd(z, file, pos, record)
    decreases 0xffff - i
  {
    hide FromEnd, EndRecord.Decode;
    pos := |file| - i - END_SIZE;
    var record := EndRecord.Decode(file[pos..pos + END_SIZE]);
    if record.signature != ZIP_END_RECORD || record.commentLength != i {
      pos := ScanFinds(z, file, i + 1);
    }
  }

  // Soundness for whole files: at `pos` there is an end record whose comment fills the rest of
  // the file and from which the listing is made; the directory that it and the zip64 records
  // declare is tiled by the declared number of central records, and the listed entries belong
  // to them.
  lemma ArchiveSound(z: Zlib, file: seq<byte>)
      returns (pos: nat, e: EndRecord, starts: seq<nat>, ats: seq<nat>, locals: seq<nat>)
    requires Scan(z, file, 0).Some?
    ensures pos + END_SIZE <= |file| && FindZip64(file, pos).Some?
    ensures var record := EndRecord.Decode(file[pos..pos + END_SIZE]);
            && record.signature == ZIP_END_RECORD
            && pos + END_SIZE + record.commentLength == |file|
            && Scan(z, file, 0) == FromEnd(z, file, pos, record)
            && e == Widened(record, FindZip64(file, pos).value)
    ensures |starts| == e.entryCount + 1 && Tile(file, starts)
    ensures starts[0] == e.directoryOffset && starts[e.entryCount] == e.directoryOffset + e.directorySize
    ensures Belong(file, starts, ats, locals, Scan(z, file, 0).value.entries)
  {
    hide Scan, Central, Belong, Tile, EndRecord.Decode, FindZip64, Zip64Accepted;
    pos := ScanFinds(z, file, 0);
    e := Widened(EndRecord.Decode(file[pos..pos + END_SIZE]), FindZip64(file, pos).value);
    starts, ats, locals := CentralTiles(z, file, e.directoryOffset, e.entryCount, e.directorySize, Listing([], []));
    var entries := Scan(z, file, 0).value.entries;
    assert entries[0..] == entries;
  }

  // The data of a listed entry ends before its own central record exactly if the end does
  // not exceed the range of size_t: the check is made on the wrapped sum.
  lemma DataEndsInTime(file: seq<byte>, centralOffset: nat, localOffset: nat, e: Entry)
    requires Located(file, centralOffset, localOffset, e) && centralOffset < TWO64
    ensures e.offset + e.len <= centralOffset <==> e.offset + e.len < TWO64
  {
  }

  // A second record with the name of a listed entry is refused exactly if the name has no
  // separator.
  lemma RepeatRefused(entries: seq<Entry>, name: Name)
    requires BACKSLASH !in name
    requires exists i :: 0 <= i < |entries| && entries[i].name == Backslashed(name)
    requires forall i :: 0 <= i < |entries| ==> SLASH !in entries[i].name
    ensures IsListed(entries, name) <==> SLASH !in name
  {
    var i :| 0 <= i < |entries| && entries[i].name == Backslashed(name);
    if SLASH !in name {
      assert forall k :: 0 <= k < |name| ==> Backslashed(name)[k] == name[k];
      assert entries[i].name == name;
    }
  }

  // Two entries have the same name only if it has a separator: listed names are compared in
  // backslash form, the new one in slash form.
  ghost predicate RepeatsSeparated(entries: seq<Entry>) {
    forall i, j :: 0 <= i < j < |entries| && entries[i].name == entries[j].name ==> BACKSLASH in entries[i].name
  }

  lemma ListNameKeeps(z: Zlib, file: seq<byte>, central: CentralHeader, name: Name, dataOffset: nat, len: nat,
      r: Listing)
    requires ListName(z, file, central, name, dataOffset, len, r).Some? && RepeatsSeparated(r.entries)
    ensures RepeatsSeparated(ListName(z, file, central, name, dataOffset, len, r).value.entries)
  {
    hide BadName, CrcAt, Replace;
    var entries := ListName(z, file, central, name, dataOffset, len, r).value.entries;
    if !IsDirectory(name) && BACKSLASH !in Backslashed(name) {
      SameForm(name);
      assert forall i :: 0 <= i < |r.entries| ==> r.entries[i].name != name;
    }
  }

  lemma SameForm(name: Name)
    requires BACKSLASH !in Backslashed(name)
    ensures Backslashed(name) == name
  {
    forall k | 0 <= k < |name| ensures Backslashed(name)[k] == name[k] {
      assert Backslashed(name)[k] != BACKSLASH;
    }
  }

  lemma FileRecordKeeps(z: Zlib, file: seq<byte>, centralOffset: nat, central: CentralHeader, r: Listing)
    requires FileRecord(z, file, centralOffset, central, r).Some? && RepeatsSeparated(r.entries)
    ensures RepeatsSeparated(FileRecord(z, file, centralOffset, central, r).value.entries)
  {
    hide Extras, LocalPart, Mismatch, BadFlags, ListName, LocalHeader.Decode, CentralHeader.Decode, RepeatsSeparated;
    var centralBuf := ReadAt(file, centralOffset + CENTRAL_SIZE, central.nameLength + central.extraLength
      + central.commentLength).value;
    var (sizes, log) := Extras(centralBuf[central.nameLength..central.nameLength + central.extraLength],
                               Sizes(central.uncompressedSize, central.compressedSize, central.offset,
                                 central.diskNumber), r.log).value;
    var (local, localBuf) := LocalPart(file, centralOffset, sizes.offset).value;
    LocalPartLength(file, centralOffset, sizes.offset);
    var (localSizes, log1) := Extras(localBuf[local.nameLength..],
      Sizes(local.uncompressedSize, local.compressedSize, 0, 0), log).value;
    var log2 := if Mismatch(local, localSizes, localBuf, central, sizes, centralBuf) then log1 + [HeaderMismatch]
      else log1;
    ListNameKeeps(z, file, central, localBuf[..local.nameLength], sizes.offset + local.nameLength + local.extraLength
      + LOCAL_SIZE,
                  sizes.uncompressed, Listing(r.entries, log2));
  }

  lemma {:induction false} CentralKeeps(z: Zlib, file: seq<byte>, offset: nat, count: nat, length: nat, r: Listing)
    requires Central(z, file, offset, count, length, r).Some? && RepeatsSeparated(r.entries)
    ensures RepeatsSeparated(Central(z, file, offset, count, length, r).value.entries)
    decreases count
  {
    hide FileRecord, CentralHeader.Decode, RepeatsSeparated;
    if count > 0 {
      var record, next := FirstIsCentral(z, file, offset, count, length, r);
      FileRecordKeeps(z, file, offset, record, r);
      CentralKeeps(z, file, offset + CentralLength(record), count - 1, length - CentralLength(record), next);
    }
  }

  // In every accepted file entries of the same name have a separator in it.
  lemma RepeatsHaveSeparator(z: Zlib, file: seq<byte>)
    requires Scan(z, file, 0).Some?
    ensures RepeatsSeparated(Scan(z, file, 0).value.entries)
  {
    hide Scan, Central, EndRecord.Decode, FindZip64, Zip64Accepted;
    var pos := ScanFinds(z, file, 0);
    var e := Widened(EndRecord.Decode(file[pos..pos + END_SIZE]), FindZip64(file, pos).value);
    CentralKeeps(z, file, e.directoryOffset, e.entryCount, e.directorySize, Listing([], []));
  }

  // Listed names never contain a slash.
  lemma ListedNames(file: seq<byte>, centralOffset: nat, localOffset: nat, e: Entry)
    requires Located(file, centralOffset, localOffset, e)
    ensures SLASH !in e.name && e.name != []
  {
    var h := LocalHeader.Decode(file[localOffset..localOffset + LOCAL_SIZE]);
    var name := file[localOffset + LOCAL_SIZE..localOffset + LOCAL_SIZE + h.nameLength];
    assert forall i :: 0 <= i < |name| ==> Backslashed(name)[i] != SLASH;
  }

  // ---------- the round trip ----------

  // Where the content of the i-th entry starts.
  function DataOffset(z: Zlib, fs: seq<Stored>, i: nat): nat
    requires i < |fs|
  {
    |Body(z, fs[..i])| + LOCAL_SIZE + |fs[i].name| + EXTRA_SIZE + 16
  }

  // What a listing of the archive should say.
  function Expected(z: Zlib, fs: seq<Stored>): seq<Entry> {
    seq(|fs|, i requires 0 <= i < |fs| => Entry(Backslashed(fs[i].name), DataOffset(z, fs, i), |fs[i].content|))
  }

  lemma {:induction false} Prefixes(z: Zlib, fs: seq<Stored>, i: nat)
    requires i <= |fs|
    ensures Body(z, fs[..i]) <= Body(z, fs) && Directory(z, fs[..i]) <= Directory(z, fs)
    decreases |fs| - i
  {
    hide Body, Directory, LocalRecord, CentralRecord;
    if i < |fs| {
      Prefixes(z, fs, i + 1);
      assert fs[..i + 1] == fs[..i] + [fs[i]];
      OneMore(z, fs[..i], fs[i]);
    } else {
      assert fs[..i] == fs;
    }
  }

  lemma CrcBounded(z: Zlib, data: seq<byte>)
    ensures z.Crc(data) < WORD
  {
    z.FoldBounded(z.start % WORD, data);
  }

  // Both extra fields of an entry give its sizes (and its offset) back.
  lemma ExtraRead(block: seq<byte>, size: nat, s: Sizes, t: Sizes, log: seq<Warning>)
    requires |block| == size < 0x1_0000 && Zip64(block, s) == Some(t)
    ensures Extras(ExtraHeader(0x0001, size).Encode() + block, s, log) == Some((t, log))
  {
    hide ExtraHeader.Encode, ExtraHeader.Decode, Zip64;
    var e := ExtraHeader(0x0001, size).Encode();
    var b := e + block;
    ExtraHeader(0x0001, size).RoundTrip();
    assert b[..EXTRA_SIZE] == e;
    assert b[EXTRA_SIZE..] == block && b[EXTRA_SIZE..EXTRA_SIZE + size] == block;
    assert b[EXTRA_SIZE + size..] == [];
  }

  lemma CentralExtraRead(f: Stored, offset: nat, log: seq<Warning>)
    requires |f.content| < TWO64 && offset < TWO64
    ensures Extras(CentralExtra(f, offset), Sizes(0xffffffff, 0xffffffff, 0xffffffff, 0), log)
            == Some((Sizes(|f.content|, |f.content|, offset, 0), log))
  {
    Ranges();
    hide LE, Take, Extras;
    var n := |f.content|;
    TakeStored(offset, 8, []);
    TakeStored(n, 8, LE(offset, 8) + []);
    TakeStored(n, 8, LE(n, 8) + (LE(offset, 8) + []));
    var block := LE(n, 8) + (LE(n, 8) + (LE(offset, 8) + []));
    ExtraRead(block, 24, Sizes(0xffffffff, 0xffffffff, 0xffffffff, 0), Sizes(n, n, offset, 0), log);
  }

  lemma LocalExtraRead(f: Stored, log: seq<Warning>)
    requires |f.content| < TWO64
    ensures Extras(LocalExtra(f), Sizes(0xffffffff, 0xffffffff, 0, 0), log)
            == Some((Sizes(|f.content|, |f.content|, 0, 0), log))
  {
    Ranges();
    hide LE, Take, Extras;
    var n := |f.content|;
    TakeStored(n, 8, []);
    TakeStored(n, 8, LE(n, 8) + []);
    var block := LE(n, 8) + (LE(n, 8) + []);
    ExtraRead(block, 16, Sizes(0xffffffff, 0xffffffff, 0, 0), Sizes(n, n, 0, 0), log);
  }

  lemma SubSlice(file: seq<byte>, offset: nat, part: seq<byte>, from: nat, to: nat)
    requires offset + |part| <= |file| && file[offset..offset + |part|] == part && from <= to <= |part|
    ensures file[offset + from..offset + to] == part[from..to]
  {
    var a, b := file[offset + from..offset + to], part[from..to];
    forall i | 0 <= i < to - from ensures a[i] == b[i] {
      assert a[i] == file[offset + (from + i)] == part[from + i];
    }
  }

  // Reading the head of a local record that lies at `offset`.
  lemma HeadRead(z: Zlib, file: seq<byte>, centralOffset: nat, offset: nat, f: Stored)
    requires |f.name| < 0x1_0000 && centralOffset < TWO64
    requires offset + |LocalHead(z, f)| <= centralOffset <= |file|
    requires file[offset..offset + |LocalHead(z, f)|] == LocalHead(z, f)
    ensures LocalPart(file, centralOffset, offset) == Some((LocalOf(z, f), f.name + LocalExtra(f)))
  {
    hide LocalHeader.Encode, LocalHeader.Decode, Zlib.Crc, LocalExtra;
    var h := LocalOf(z, f);
    CrcBounded(z, f.content);
    h.RoundTrip();
    var head := LocalHead(z, f);
    assert head[..LOCAL_SIZE] == h.Encode();
    SubSlice(file, offset, head, 0, LOCAL_SIZE);
    assert head[LOCAL_SIZE..] == f.name + LocalExtra(f);
    SubSlice(file, offset, head, LOCAL_SIZE, |head|);
  }

  // Reading the parts of a local record that lies at `offset`.
  lemma LocalRead(z: Zlib, file: seq<byte>, centralOffset: nat, offset: nat, f: Stored)
    requires |f.name| < 0x1_0000 && centralOffset < TWO64
    requires offset + |LocalRecord(z, f)| <= centralOffset <= |file|
    requires file[offset..offset + |LocalRecord(z, f)|] == LocalRecord(z, f)
    ensures LocalPart(file, centralOffset, offset) == Some((LocalOf(z, f), f.name + LocalExtra(f)))
    ensures var data := offset + LOCAL_SIZE + |f.name| + EXTRA_SIZE + 16;
            file[data..data + |f.content|] == f.content
  {
    hide LocalHead, LocalPart, LocalExtra;
    var rec := LocalRecord(z, f);
    var data := |LocalHead(z, f)|;
    assert rec[..data] == LocalHead(z, f) && rec[data..] == f.content;
    SubSlice(file, offset, rec, 0, data);
    HeadRead(z, file, centralOffset, offset, f);
    SubSlice(file, offset, rec, data, |rec|);
  }

  // Reading the two headers of an entry: they agree and nothing is complained about, but the
  // length of the content has to pass the check.
  lemma HeadersRead(z: Zlib, file: seq<byte>, centralOffset: nat, offset: nat, f: Stored, r: Listing)
    requires |f.name| < 0x1_0000 && |f.content| < TWO64 && offset < TWO64
    requires centralOffset + |CentralRecord(z, f, offset)| <= |file|
    requires LocalPart(file, centralOffset, offset) == Some((LocalOf(z, f), f.name + LocalExtra(f)))
    requires file[centralOffset..centralOffset + |CentralRecord(z, f, offset)|] == CentralRecord(z, f, offset)
    ensures var data := offset + LOCAL_SIZE + |f.name| + EXTRA_SIZE + 16;
            FileRecord(z, file, centralOffset, CentralOf(z, f), r) ==
            if Add64(data, |f.content|) > centralOffset then None
            else ListName(z, file, CentralOf(z, f), f.name, data, |f.content|, r)
    ensures file[centralOffset..centralOffset + CENTRAL_SIZE] == CentralOf(z, f).Encode()
  {
    hide CentralHeader.Encode, Zlib.Crc, LocalExtra, CentralExtra, Extras, LocalPart, ListName;
    LocalExtraRead(f, r.log);
    CentralExtraRead(f, offset, r.log);
    var rec := CentralRecord(z, f, offset);
    var buf := f.name + CentralExtra(f, offset);
    assert rec[..CENTRAL_SIZE] == CentralOf(z, f).Encode();
    SubSlice(file, centralOffset, rec, 0, CENTRAL_SIZE);
    assert rec[CENTRAL_SIZE..] == buf;
    SubSlice(file, centralOffset, rec, CENTRAL_SIZE, |rec|);
    assert buf[|f.name|..] == CentralExtra(f, offset);
    assert buf[|f.name|..|f.name| + EXTRA_SIZE + 24] == CentralExtra(f, offset);
    var localBuf := f.name + LocalExtra(f);
    assert localBuf[|f.name|..] == LocalExtra(f);
    assert localBuf[..|f.name|] == f.name && buf[..|f.name|] == f.name;
  }

  // Reading one entry: both headers agree and nothing is complained about.
  lemma EntryRead(z: Zlib, file: seq<byte>, centralOffset: nat, offset: nat, f: Stored, r: Listing)
    requires |f.name| < 0x1_0000 && centralOffset < TWO64
    requires offset + |LocalRecord(z, f)| <= centralOffset
    requires centralOffset + |CentralRecord(z, f, offset)| <= |file|
    requires file[offset..offset + |LocalRecord(z, f)|] == LocalRecord(z, f)
    requires file[centralOffset..centralOffset + |CentralRecord(z, f, offset)|] == CentralRecord(z, f, offset)
    ensures FileRecord(z, file, centralOffset, CentralOf(z, f), r) ==
            ListName(z, file, CentralOf(z, f), f.name, offset + LOCAL_SIZE + |f.name| + EXTRA_SIZE + 16, |f.content|, r)
    ensures file[centralOffset..centralOffset + CENTRAL_SIZE] == CentralOf(z, f).Encode()
    ensures var data := offset + LOCAL_SIZE + |f.name| + EXTRA_SIZE + 16;
            file[data..data + |f.content|] == f.content
  {
    hide FileRecord, ListName, LocalPart, LocalRecord, CentralRecord, CentralHeader.Encode;
    LocalRead(z, file, centralOffset, offset, f);
    HeadersRead(z, file, centralOffset, offset, f, r);
  }

  // A name without backslashes is the backslash form of itself only.
  lemma NoSlashLost(a: Name, b: Name)
    requires BACKSLASH !in b
    ensures Backslashed(a) == b ==> a == b && SLASH !in a
  {
    if Backslashed(a) == b {
      forall k | 0 <= k < |a| ensures a[k] == b[k] && a[k] != SLASH {
        assert b[k] != BACKSLASH;
      }
    }
  }

  // Names that are used again have a separator.
  predicate Separated(fs: seq<Stored>) {
    forall i, j :: 0 <= i < j < |fs| && fs[i].name == fs[j].name ==> SLASH in fs[i].name
  }

  // The name of the next entry is not found among the listed ones.
  lemma NotYetListed(z: Zlib, fs: seq<Stored>, i: nat)
    requires Separated(fs) && i < |fs| && BACKSLASH !in fs[i].name
    ensures !IsListed(Expected(z, fs[..i]), fs[i].name)
  {
    forall j | 0 <= j < i ensures Backslashed(fs[j].name) != fs[i].name {
      NoSlashLost(fs[j].name, fs[i].name);
    }
  }

  predicate AllStorable(fs: seq<Stored>) {
    forall i :: 0 <= i < |fs| ==> Storable(fs[i].name)
  }

  lemma ExpectedGrows(z: Zlib, fs: seq<Stored>, i: nat)
    requires i < |fs|
    ensures Expected(z, fs[..i + 1]) ==
            Expected(z, fs[..i]) + [Entry(Backslashed(fs[i].name), DataOffset(z, fs, i), |fs[i].content|)]
  {
    hide Body, Replace;
    assert fs[..i + 1][..i] == fs[..i];
    forall j | 0 <= j < i ensures fs[..i + 1][..j] == fs[..i][..j] {
    }
  }

  // What is left to be read when the first i entries have been listed.
  function Rest(z: Zlib, file: seq<byte>, fs: seq<Stored>, i: nat): Option<Listing>
    requires i <= |fs| && |Directory(z, fs[..i])| <= |Directory(z, fs)|
  {
    Central(z, file, |Body(z, fs)| + |Directory(z, fs[..i])|, |fs| - i,
            |Directory(z, fs)| - |Directory(z, fs[..i])|, Listing(Expected(z, fs[..i]), []))
  }

  // Entry i of an archive is found, and nothing is complained about.
  lemma EntryListed(z: Zlib, file: seq<byte>, fs: seq<Stored>, i: nat)
    requires i < |fs| && Separated(fs) && AllStorable(fs)
    requires Body(z, fs) + Directory(z, fs) <= file && |file| < TWO64
    ensures var offset, centralOffset := |Body(z, fs[..i])|, |Body(z, fs)| + |Directory(z, fs[..i])|;
            && Directory(z, fs[..i + 1]) == Directory(z, fs[..i]) + CentralRecord(z, fs[i], offset)
            && centralOffset + |CentralRecord(z, fs[i], offset)| <= |file|
            && file[centralOffset..centralOffset + CENTRAL_SIZE] == CentralOf(z, fs[i]).Encode()
            && FileRecord(z, file, centralOffset, CentralOf(z, fs[i]), Listing(Expected(z, fs[..i]), []))
               == Some(Listing(Expected(z, fs[..i + 1]), []))
  {
    hide FileRecord, CentralHeader.Encode, CentralHeader.Decode, Body, Directory, LocalRecord, CentralRecord, Expected,
      BadName, IsListed, Replace, Zlib.Crc;
    var f := fs[i];
    var offset := |Body(z, fs[..i])|;
    var centralOffset := |Body(z, fs)| + |Directory(z, fs[..i])|;
    assert fs[..i + 1] == fs[..i] + [f];
    OneMore(z, fs[..i], f);
    Prefixes(z, fs, i + 1);
    InFile(file, Body(z, fs), Directory(z, fs), Body(z, fs[..i]), LocalRecord(z, f), Directory(z, fs[..i]),
      CentralRecord(z, f, offset));
    EntryRead(z, file, centralOffset, offset, f, Listing(Expected(z, fs[..i]), []));
    NoBackslash(f.name);
    NotYetListed(z, fs, i);
    ExpectedGrows(z, fs, i);
  }

  lemma DirectoryStep(z: Zlib, file: seq<byte>, fs: seq<Stored>, i: nat)
    requires i < |fs| && Separated(fs) && AllStorable(fs)
    requires Body(z, fs) + Directory(z, fs) <= file && |file| < TWO64
    ensures |Directory(z, fs[..i])| <= |Directory(z, fs[..i + 1])| <= |Directory(z, fs)|
    ensures Rest(z, file, fs, i) == Rest(z, file, fs, i + 1)
  {
    hide FileRecord, CentralHeader.Encode, CentralHeader.Decode, Body, Directory, Expected, Separated, AllStorable,
      Zlib.Crc;
    Prefixes(z, fs, i + 1);
    EntryListed(z, file, fs, i);
    CrcBounded(z, fs[i].content);
    StorableShort(fs, i);
    CentralOf(z, fs[i]).RoundTrip();
    var offset, centralOffset := |Body(z, fs[..i])|, |Body(z, fs)| + |Directory(z, fs[..i])|;
    assert CentralLength(CentralOf(z, fs[i])) == |CentralRecord(z, fs[i], offset)|;
    assert ReadAt(file, centralOffset, CENTRAL_SIZE) == Some(CentralOf(z, fs[i]).Encode());
  }

  lemma StorableShort(fs: seq<Stored>, i: nat)
    requires i < |fs| && AllStorable(fs)
    ensures |fs[i].name| < 0x1_0000
  {
  }

  // The directory of an archive is read entry by entry.
  lemma {:induction false} DirectoryRead(z: Zlib, file: seq<byte>, fs: seq<Stored>, i: nat)
    requires i <= |fs| && Separated(fs) && AllStorable(fs)
    requires Body(z, fs) + Directory(z, fs) <= file && |file| < TWO64
    ensures |Directory(z, fs[..i])| <= |Directory(z, fs)|
    ensures Rest(z, file, fs, i) == Some(Listing(Expected(z, fs), []))
    decreases |fs| - i
  {
    if i == |fs| {
      assert fs[..i] == fs;
    } else {
      hide Central, Body, Directory, Expected, Rest;
      DirectoryStep(z, file, fs, i);
      DirectoryRead(z, file, fs, i + 1);
    }
  }

  // Parts of the two halves of a file.
  lemma InFile(file: seq<byte>, body: seq<byte>, dir: seq<byte>, b: seq<byte>, local: seq<byte>, d: seq<byte>,
      central: seq<byte>)
    requires body + dir <= file && b + local <= body && d + central <= dir
    ensures |b| + |local| <= |body| && |body| + |d| + |central| <= |file|
    ensures file[|b|..|b| + |local|] == local
    ensures file[|body| + |d|..|body| + |d| + |central|] == central
  {
    assert file[..|body|] == body;
    assert file[|body|..|body| + |dir|] == dir;
    assert body[..|b| + |local|] == b + local;
    assert dir[..|d| + |central|] == d + central;
    assert file[|b|..|b| + |local|] == body[|b|..|b| + |local|];
    assert file[|body| + |d|..|body| + |d| + |central|] == dir[|d|..|d| + |central|];
  }

  // The end records lead the reader to the directory, whatever stands before them.
  lemma EndRead(z: Zlib, b: seq<byte>, d: seq<byte>, entries: nat)
    requires |Enclosed(b, d, entries)| < TWO64 && entries < TWO64
    ensures Scan(z, Enclosed(b, d, entries), 0)
            == Central(z, Enclosed(b, d, entries), |b|, entries, |d|, Listing([], []))
  {
    hide Central, End64Record.Encode, End64Record.Decode, End64Locator.Encode, End64Locator.Decode,
      EndRecord.Encode, EndRecord.Decode, Blocks;
    var file := Enclosed(b, d, entries);
    var e64, loc := End64Of(b, d, entries), LocatorOf(b, d);
    var pos := |file| - END_SIZE;
    var end64At := |b| + |d|;
    e64.RoundTrip();
    loc.RoundTrip();
    END.RoundTrip();
    assert file[pos..pos + END_SIZE] == END.Encode();
    assert file[pos - LOCATOR_SIZE..pos] == loc.Encode();
    assert file[end64At..end64At + END64_SIZE] == e64.Encode();
    assert ReadAt(file, end64At, END64_SIZE) == Some(e64.Encode());
    assert FindZip64(file, pos) == Some(Extended(loc, e64));
    NoBlocks(file, end64At + END64_SIZE);
    assert Zip64Accepted(file, pos, Extended(loc, e64));
    assert FromEnd(z, file, pos, END) == Central(z, file, |b|, entries, |d|, Listing([], []));
  }

  lemma NoBlocks(file: seq<byte>, offset: nat)
    ensures Blocks(file, offset, 0)
  {
  }

  // Every local record takes room, so there are fewer entries than bytes.
  lemma {:induction false} FewerThanBytes(z: Zlib, fs: seq<Stored>)
    ensures |fs| <= |Body(z, fs)|
  {
    if fs != [] {
      FewerThanBytes(z, fs[..|fs| - 1]);
    }
  }

  // The round trip: an archive is listed as exactly the entries stored, without a single
  // complaint, if and only if every name can be listed and those that are used again have a
  // separator.
  lemma RoundTrip(z: Zlib, fs: seq<Stored>)
    requires forall f :: f in fs ==> BACKSLASH !in f.name
    requires |Archive(z, fs)| < TWO64
    ensures Scan(z, Archive(z, fs), 0) == Some(Listing(Expected(z, fs), [])) <==> AllStorable(fs) && Separated(fs)
  {
    hide Scan, Central, Body, Directory, AllStorable, Separated, Enclosed, Expected;
    FewerThanBytes(z, fs);
    ArchiveLonger(z, fs);
    EndRead(z, Body(z, fs), Directory(z, fs), |fs|);
    if AllStorable(fs) && Separated(fs) {
      assert fs[..0] == [];
      NothingYet(z);
      HalvesFirst(Body(z, fs), Directory(z, fs), |fs|);
      DirectoryRead(z, Archive(z, fs), fs, 0);
    }
    if Scan(z, Archive(z, fs), 0) == Some(Listing(Expected(z, fs), [])) {
      ListedMeansStorable(z, fs, []);
      RepeatsHaveSeparator(z, Archive(z, fs));
      ExpectedSeparated(z, fs);
    }
  }

  lemma HalvesFirst(b: seq<byte>, d: seq<byte>, entries: nat)
    ensures b + d <= Enclosed(b, d, entries)
  {
    hide End64Record.Encode, End64Locator.Encode, EndRecord.Encode;
  }

  lemma ExpectedSeparated(z: Zlib, fs: seq<Stored>)
    requires RepeatsSeparated(Expected(z, fs)) && forall f :: f in fs ==> BACKSLASH !in f.name
    ensures Separated(fs)
  {
    hide DataOffset;
    forall i, j | 0 <= i < j < |fs| && fs[i].name == fs[j].name ensures SLASH in fs[i].name {
      var e := Expected(z, fs);
      assert e[i].name == e[j].name;
      var k :| 0 <= k < |e[i].name| && e[i].name[k] == BACKSLASH;
      assert fs[i] in fs;
    }
  }

  // A name with a separator that is stored twice is listed twice.
  lemma ListedTwice(z: Zlib, f: Stored)
    requires Storable(f.name) && SLASH in f.name && |Archive(z, [f, f])| < TWO64
    ensures var r := Scan(z, Archive(z, [f, f]), 0);
            r.Some? && |r.value.entries| == 2 && r.value.entries[0].name == r.value.entries[1].name
              == Backslashed(f.name)
  {
    hide Scan, Archive, BadName, DataOffset;
    NoBackslash(f.name);
    RoundTrip(z, [f, f]);
  }

  // An archive of one entry whose content has been left out.
  function Hollow(z: Zlib, f: Stored): seq<byte> {
    Enclosed(LocalHead(z, f), CentralRecord(z, f, 0), 1)
  }

  // It is accepted exactly if the length of the content is 0 or so large that the end of the
  // content exceeds 64 bits; then an entry is listed that ends far behind the file.
  lemma WrappedLengthPasses(z: Zlib, f: Stored)
    requires Storable(f.name) && |f.content| < TWO64 && |Hollow(z, f)| < TWO64
    ensures var data := |LocalHead(z, f)|;
            var r := Scan(z, Hollow(z, f), 0);
            && (r.Some? <==> |f.content| == 0 || data + |f.content| >= TWO64)
            && (r.Some? ==> r.value.entries == [Entry(Backslashed(f.name), data, |f.content|)])
            && (r.Some? && |f.content| > 0 ==> data + |f.content| > |Hollow(z, f)|)
  {
    hide Scan, FileRecord, ListName, LocalPart, LocalHead, CentralRecord, CentralHeader.Encode, CentralHeader.Decode,
      BadName, Zlib.Crc, Enclosed;
    var b, d := LocalHead(z, f), CentralRecord(z, f, 0);
    var file := Hollow(z, f);
    EndRead(z, b, d, 1);
    HalvesFirst(b, d, 1);
    InFile(file, b, d, [], b, [], d);
    HeadRead(z, file, |b|, 0, f);
    HeadersRead(z, file, |b|, 0, f, Listing([], []));
    CrcBounded(z, f.content);
    CentralOf(z, f).RoundTrip();
    assert ReadAt(file, |b|, CENTRAL_SIZE) == Some(CentralOf(z, f).Encode());
    OnlyEntry(z, file, |b|, f);
  }

  // The only record of a directory.
  lemma OnlyEntry(z: Zlib, file: seq<byte>, offset: nat, f: Stored)
    requires Storable(f.name) && ReadAt(file, offset, CENTRAL_SIZE) == Some(CentralOf(z, f).Encode())
    requires CentralHeader.Decode(CentralOf(z, f).Encode()) == CentralOf(z, f)
    requires FileRecord(z, file, offset, CentralOf(z, f), Listing([], [])) ==
             if Add64(offset, |f.content|) > offset then None
             else ListName(z, file, CentralOf(z, f), f.name, offset, |f.content|, Listing([], []))
    ensures var r := Central(z, file, offset, 1, |CentralRecord(z, f, 0)|, Listing([], []));
            && (r.Some? <==> Add64(offset, |f.content|) <= offset)
            && (r.Some? ==> r.value.entries == [Entry(Backslashed(f.name), offset, |f.content|)])
  {
    hide FileRecord, CentralHeader.Encode, CentralHeader.Decode, BadName, Zlib.Crc, CrcAt, Replace;
  }

  lemma NothingYet(z: Zlib)
    ensures Body(z, []) == [] && Directory(z, []) == [] && Expected(z, []) == []
  {
  }

  // Conversely a name that cannot be listed never appears in the listing.
  lemma ListedMeansStorable(z: Zlib, fs: seq<Stored>, log: seq<Warning>)
    requires (forall f :: f in fs ==> BACKSLASH !in f.name) && |Archive(z, fs)| < TWO64
    requires Scan(z, Archive(z, fs), 0) == Some(Listing(Expected(z, fs), log))
    ensures AllStorable(fs)
  {
    hide Located, Body, Directory, Central, Scan, Enclosed;
    var file := Archive(z, fs);
    FewerThanBytes(z, fs);
    ArchiveLonger(z, fs);
    EndRead(z, Body(z, fs), Directory(z, fs), |fs|);
    var starts, ats, locals := CentralTiles(z, file, |Body(z, fs)|, |fs|, |Directory(z, fs)|, Listing([], []));
    assert Expected(z, fs)[0..] == Expected(z, fs);
    forall i | 0 <= i < |fs| ensures Storable(fs[i].name) {
      LocatedStorable(file, ats[i], locals[i], Expected(z, fs)[i], fs[i].name);
    }
  }

  lemma ArchiveLonger(z: Zlib, fs: seq<Stored>)
    ensures |Body(z, fs)| <= |Archive(z, fs)|
  {
    hide Body, Directory;
  }

  lemma LocatedStorable(file: seq<byte>, centralOffset: nat, localOffset: nat, e: Entry, name: Name)
    requires Located(file, centralOffset, localOffset, e) && e.name == Backslashed(name) && BACKSLASH !in name
    ensures Storable(name)
  {
    hide BadName, LocalHeader.Decode;
    var h := LocalHeader.Decode(file[localOffset..localOffset + LOCAL_SIZE]);
    var other := file[localOffset + LOCAL_SIZE..localOffset + LOCAL_SIZE + h.nameLength];
    NoBackslash(other);
    assert |other| == |name|;
    forall k | 0 <= k < |name| ensures other[k] == name[k] {
      assert Backslashed(name)[k] == Backslashed(other)[k];
      assert name[k] != BACKSLASH && other[k] != BACKSLASH;
    }
    assert other == name;
  }

  lemma NoBackslash(name: Name)
    requires !BadName(name)
    ensures BACKSLASH !in name
  {
  }

  lemma BodyFirst(z: Zlib, fs: seq<Stored>)
    ensures Body(z, fs) + [] <= Archive(z, fs)
  {
    hide Body, Directory, End64Record.Encode, End64Locator.Encode, EndRecord.Encode;
  }

  // The local record of every entry stands in the archive, before the directory.
  lemma RecordInFile(z: Zlib, fs: seq<Stored>, i: nat)
    requires i < |fs|
    ensures var b, rec := Body(z, fs[..i]), LocalRecord(z, fs[i]);
            && |b| + |rec| <= |Body(z, fs)| <= |Archive(z, fs)|
            && Archive(z, fs)[|b|..|b| + |rec|] == rec
  {
    hide *;
    Prefixes(z, fs, i + 1);
    assert fs[..i + 1] == fs[..i] + [fs[i]];
    OneMore(z, fs[..i], fs[i]);
    BodyFirst(z, fs);
    InFile(Archive(z, fs), Body(z, fs), [], Body(z, fs[..i]), LocalRecord(z, fs[i]), [], []);
  }

  // Offset and length of every listed entry select exactly the stored content.
  lemma ListedContent(z: Zlib, fs: seq<Stored>, i: nat)
    requires i < |fs| && AllStorable(fs) && |Archive(z, fs)| < TWO64
    ensures var e := Expected(z, fs)[i];
            e.offset + e.len <= |Body(z, fs)| && Archive(z, fs)[e.offset..e.offset + e.len] == fs[i].content
  {
    hide Body, LocalRecord, LocalPart, LocalOf, LocalExtra, BadName, Replace, Archive;
    RecordInFile(z, fs, i);
    LocalRead(z, Archive(z, fs), |Body(z, fs)|, |Body(z, fs[..i])|, fs[i]);
  }

  // Storing a list of files and listing the result.
  method StoreAndList(z: Zlib, adds: seq<Stored>) returns (ok: bool, listing: Listing)
    ensures |Archive(z, Accepted(adds))| < TWO64 ==>
              (ok && listing == Listing(Expected(z, Accepted(adds)), []) <==> AllStorable(Accepted(adds)))
  {
    hide Scan, Archive, Accepted, AllStorable;
    var file := WriteArchive(z, adds);
    var r := new GOArchiveReader(z, file);
    ok := r.ReadEndRecord();
    listing := r.State();
    if |file| < TWO64 {
      AcceptedDistinct(adds);
      RoundTrip(z, Accepted(adds));
    }
  }
}
