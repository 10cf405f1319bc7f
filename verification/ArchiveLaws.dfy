// What an accepted archive is, said of bytes, fields and the parts of names: which names may be
// listed, which flags may be set, which records are accepted and which end record is taken.
module ArchiveLaws {
  import opened Arithmetic
  import opened Bytes
  import opened Options
  import opened ZipFormat
  import opened ArchiveWriter
  import opened ArchiveReader
  import opened ArchiveTheorems

  // ---------- the parts of a name ----------

  // name[lo..hi] is a part: a separator or an end on each side, and no separator inside.
  predicate IsPart(name: Name, separator: byte, lo: nat, hi: nat) {
    && lo <= hi <= |name|
    && (lo == 0 || name[lo - 1] == separator)
    && (hi == |name| || name[hi] == separator)
    && separator !in name[lo..hi]
  }

  // The part stays where it is or leads to the directory above.
  predicate Moves(part: Name) {
    part == [46] || part == [46, 46]
  }

  // A letter, a colon and a separator.
  predicate OnDrive(name: Name, separator: byte) {
    && |name| >= 3 && name[1] == 58 && name[2] == separator
    && (65 <= name[0] <= 90 || 97 <= name[0] <= 122)
  }

  // No part is empty, and "." and ".." are no parts but of the names "." and "..".
  ghost predicate Inside(name: Name, separator: byte) {
    && name != [] && !OnDrive(name, separator)
    && forall lo: nat, hi: nat :: IsPart(name, separator, lo, hi) ==>
         name[lo..hi] != [] && (Moves(name[lo..hi]) ==> name[lo..hi] == name)
  }

  // The same for a name that may end in a separator, as that of a directory does.
  ghost predicate InsideOrDirectory(name: Name) {
    && name != [] && !OnDrive(name, SLASH)
    && forall lo: nat, hi: nat :: IsPart(name, SLASH, lo, hi) ==>
         (name[lo..hi] == [] ==> lo == |name|) && (Moves(name[lo..hi]) ==> name[lo..hi] == name)
  }

  // The tests on names refuse exactly those with a bad part, a drive or a backslash.
  lemma NameRefused(name: Name)
    ensures !BadName(name) <==> InsideOrDirectory(name) && BACKSLASH !in name
  {
    if !BadName(name) {
      forall lo: nat, hi: nat | IsPart(name, SLASH, lo, hi)
        ensures (name[lo..hi] == [] ==> lo == |name|) && (Moves(name[lo..hi]) ==> name[lo..hi] == name)
      {
        PartOfGoodName(name, lo, hi);
      }
    }
    if BadName(name) && InsideOrDirectory(name) && BACKSLASH !in name {
      BadPart(name);
    }
  }

  lemma PartOfGoodName(name: Name, lo: nat, hi: nat)
    requires !BadName(name) && IsPart(name, SLASH, lo, hi)
    ensures name[lo..hi] == [] ==> lo == |name|
    ensures Moves(name[lo..hi]) ==> name[lo..hi] == name
  {
    assert lo > 0 ==>
        && !HasAt(name, [SLASH, SLASH], lo - 1)
        && !HasAt(name, [SLASH, DOT, SLASH], lo - 1)
        && !HasAt(name, [SLASH, DOT, DOT, SLASH], lo - 1);
    assert hi > lo ==> name[lo] == name[lo..hi][0];
    assert hi > lo + 1 ==> name[lo + 1] == name[lo..hi][1];
  }

  lemma BadPart(name: Name)
    requires BadName(name) && name != [] && BACKSLASH !in name && !OnDrive(name, SLASH)
    ensures !InsideOrDirectory(name)
  {
    var n := |name|;
    if CharAt(name, 0) == SLASH {
      assert IsPart(name, SLASH, 0, 0);
    } else if Contains(name, [SLASH, SLASH]) {
      var i: nat :| HasAt(name, [SLASH, SLASH], i);
      Letters(name, [SLASH, SLASH], i);
      assert IsPart(name, SLASH, i + 1, i + 1);
    } else if Contains(name, [SLASH, DOT, SLASH]) {
      var i: nat :| HasAt(name, [SLASH, DOT, SLASH], i);
      Letters(name, [SLASH, DOT, SLASH], i);
      assert name[i + 1..i + 2] == [DOT] && IsPart(name, SLASH, i + 1, i + 2);
    } else if Contains(name, [SLASH, DOT, DOT, SLASH]) {
      var i: nat :| HasAt(name, [SLASH, DOT, DOT, SLASH], i);
      Letters(name, [SLASH, DOT, DOT, SLASH], i);
      assert name[i + 1..i + 3] == [DOT, DOT] && IsPart(name, SLASH, i + 1, i + 3);
    } else if CharAt(name, 0) == DOT && CharAt(name, 1) == SLASH {
      assert name[0..1] == [DOT] && IsPart(name, SLASH, 0, 1);
    } else if CharAt(name, 0) == DOT && CharAt(name, 1) == DOT && CharAt(name, 2) == SLASH {
      assert name[0..2] == [DOT, DOT] && IsPart(name, SLASH, 0, 2);
    } else if n >= 2 && name[n - 1] == DOT && name[n - 2] == SLASH {
      assert name[n - 1..n] == [DOT] && IsPart(name, SLASH, n - 1, n);
    } else {
      assert name[n - 2..n] == [DOT, DOT] && IsPart(name, SLASH, n - 2, n);
    }
  }

  lemma Letters(name: Name, pattern: Name, i: nat)
    requires HasAt(name, pattern, i)
    ensures forall k :: i <= k < i + |pattern| ==> name[k] == pattern[k - i]
  {
    forall k | i <= k < i + |pattern| ensures name[k] == pattern[k - i] {
      assert name[i..i + |pattern|][k - i] == name[k];
    }
  }

  // A name can be listed if and only if it is short enough, has no backslash and stays inside
  // the archive.
  lemma StorableExactly(name: Name)
    ensures Storable(name) <==> Inside(name, SLASH) && BACKSLASH !in name && |name| < 0x1_0000
  {
    NameRefused(name);
    if IsDirectory(name) {
      assert IsPart(name, SLASH, |name|, |name|);
    }
  }

  lemma BackslashedInside(name: Name)
    requires Inside(name, SLASH) && BACKSLASH !in name
    ensures Inside(Backslashed(name), BACKSLASH) && SLASH !in Backslashed(name)
  {
    var r := Backslashed(name);
    forall i | 0 <= i < |name| ensures r[i] == BACKSLASH <==> name[i] == SLASH {
      assert name[i] in name;
    }
    forall lo: nat, hi: nat | IsPart(r, BACKSLASH, lo, hi)
      ensures r[lo..hi] != [] && (Moves(r[lo..hi]) ==> r[lo..hi] == r)
    {
      forall i | lo <= i < hi ensures name[i] != SLASH {
        assert r[i] == r[lo..hi][i - lo];
      }
      assert name[lo..hi] == r[lo..hi];
      assert IsPart(name, SLASH, lo, hi);
    }
  }

  // Every name in the listing of every accepted file stays inside the archive, in backslash
  // form.
  lemma EntriesInside(z: Zlib, file: seq<byte>)
    requires Scan(z, file, 0).Some?
    ensures forall e :: e in Scan(z, file, 0).value.entries ==> Inside(e.name, BACKSLASH) && SLASH !in e.name
  {
    hide *;
    var pos, e, starts, ats, locals := ArchiveSound(z, file);
    var entries := Scan(z, file, 0).value.entries;
    BelongLocated(file, starts, ats, locals, entries);
    forall i | 0 <= i < |entries| ensures Inside(entries[i].name, BACKSLASH) && SLASH !in entries[i].name {
      LocatedInside(file, ats[i], locals[i], entries[i]);
    }
  }

  lemma BelongLocated(file: seq<byte>, starts: seq<nat>, ats: seq<nat>, locals: seq<nat>, entries: seq<Entry>)
    requires starts != [] && Belong(file, starts, ats, locals, entries)
    ensures |ats| == |locals| == |entries|
    ensures forall i :: 0 <= i < |entries| ==> Located(file, ats[i], locals[i], entries[i])
  {
    hide Located;
  }

  lemma LocatedInside(file: seq<byte>, centralOffset: nat, localOffset: nat, e: Entry)
    requires Located(file, centralOffset, localOffset, e)
    ensures Inside(e.name, BACKSLASH) && SLASH !in e.name
  {
    hide Storable, Inside, LocalHeader.Decode, Replace;
    var h := LocalHeader.Decode(file[localOffset..localOffset + LOCAL_SIZE]);
    var name := file[localOffset + LOCAL_SIZE..localOffset + LOCAL_SIZE + h.nameLength];
    StorableExactly(name);
    BackslashedInside(name);
  }

  // ---------- what is stored ----------

  // The content that is added first under a name is stored, in slash form, and nothing else is.
  lemma {:induction false} FirstOfName(adds: seq<Stored>, i: nat)
    requires i < |adds| && forall k :: 0 <= k < i ==> Slashed(adds[k].name) != Slashed(adds[i].name)
    ensures Stored(Slashed(adds[i].name), adds[i].content) in Accepted(adds)
    decreases |adds|
  {
    hide Replace;
    var n := |adds| - 1;
    if i < n {
      FirstOfName(adds[..n], i);
    } else {
      var before := Accepted(adds[..n]);
      forall j | 0 <= j < |before| ensures before[j].name != Slashed(adds[i].name) {
        var k := AddedBy(adds[..n], before[j]);
        assert adds[..n][k] == adds[k];
      }
    }
  }

  // Everything stored was added.
  lemma {:induction false} AddedBy(adds: seq<Stored>, f: Stored) returns (k: nat)
    requires f in Accepted(adds)
    ensures k < |adds| && f == Stored(Slashed(adds[k].name), adds[k].content)
    decreases |adds|
  {
    hide Replace;
    var n := |adds| - 1;
    if f in Accepted(adds[..n]) {
      k := AddedBy(adds[..n], f);
    } else {
      k := n;
    }
  }

  // ---------- records ----------

  // Of the general purpose flags only bits 1, 2, 4 and 11 may be set.
  lemma FlagsAccepted(flags: nat)
    requires flags < 0x1_0000
    ensures !BadFlags(flags) <==>
            flags in {0, 2, 4, 6, 16, 18, 20, 22, 0x0800, 0x0802, 0x0804, 0x0806, 0x0810, 0x0812, 0x0814, 0x0816}
  {
    var low, high := flags % 0x100, flags / 0x100;
    assert flags == low + 0x100 * high && high < 0x100;
    LowFlags(low);
    HighFlags(high);
    SplitFlags(low, high);
  }

  predicate LowClear(low: nat) {
    low % 2 == low / 8 % 2 == low / 0x20 % 2 == low / 0x40 % 2 == low / 0x80 % 2 == 0
  }

  predicate HighClear(high: nat) {
    && high % 2 == high / 2 % 2 == high / 4 % 2 == 0
    && high / 0x10 % 2 == high / 0x20 % 2 == high / 0x40 % 2 == high / 0x80 % 2 == 0
  }

  lemma LowFlags(low: nat)
    requires low < 0x100
    ensures LowClear(low) <==> low in {0, 2, 4, 6, 16, 18, 20, 22}
  {
  }

  lemma HighFlags(high: nat)
    requires high < 0x100
    ensures HighClear(high) <==> high in {0, 8}
  {
  }

  lemma SplitFlags(low: nat, high: nat)
    requires low < 0x100 && high < 0x100
    ensures BadFlags(low + 0x100 * high) <==> !LowClear(low) || !HighClear(high)
  {
    SplitLow(low, high);
    SplitHigh(low, high);
  }

  lemma SplitLow(low: nat, high: nat)
    requires low < 0x100
    ensures var flags := low + 0x100 * high;
            && flags % 2 == low % 2 && flags / 8 % 2 == low / 8 % 2 && flags / 0x20 % 2 == low / 0x20 % 2
            && flags / 0x40 % 2 == low / 0x40 % 2 && flags / 0x80 % 2 == low / 0x80 % 2
  {
    var flags := low + 0x100 * high;
    Even(low, 0x80 * high);
    assert flags / 8 == low / 8 + 2 * (0x10 * high);
    Even(low / 8, 0x10 * high);
    assert flags / 0x20 == low / 0x20 + 2 * (4 * high);
    Even(low / 0x20, 4 * high);
    assert flags / 0x40 == low / 0x40 + 2 * (2 * high);
    Even(low / 0x40, 2 * high);
    assert flags / 0x80 == low / 0x80 + 2 * high;
    Even(low / 0x80, high);
  }

  lemma Even(x: nat, y: nat)
    ensures (x + 2 * y) % 2 == x % 2
  {
  }

  lemma SplitHigh(low: nat, high: nat)
    requires low < 0x100
    ensures var flags := low + 0x100 * high;
            && flags / 0x100 == high && flags / 0x200 == high / 2 && flags / 0x400 == high / 4
            && flags / 0x1000 == high / 0x10 && flags / 0x2000 == high / 0x20
            && flags / 0x4000 == high / 0x40 && flags / 0x8000 == high / 0x80
  {
  }

  // All records start with the letters PK.
  lemma Signatures()
    ensures LE(ZIP_LOCAL_HEADER, 4) == [80, 75, 3, 4] && LE(ZIP_CENTRAL_DIRECTORY_HEADER, 4) == [80, 75, 1, 2]
    ensures LE(ZIP_END_RECORD, 4) == [80, 75, 5, 6] && LE(ZIP_END64_RECORD, 4) == [80, 75, 6, 6]
    ensures LE(ZIP_END64_LOCATOR, 4) == [80, 75, 6, 7]
  {
    hide LE;
    StoredAgain([80, 75, 3, 4]);
    StoredAgain([80, 75, 1, 2]);
    StoredAgain([80, 75, 5, 6]);
    StoredAgain([80, 75, 6, 6]);
    StoredAgain([80, 75, 6, 7]);
  }

  lemma StoredAgain(b: seq<byte>)
    requires |b| == 4
    ensures var w0: int, w1: int, w2: int, w3: int := b[0], b[1], b[2], b[3];
            LE(w0 + 0x100 * w1 + 0x1_0000 * w2 + 0x100_0000 * w3, 4) == b
  {
    FourWeights(b);
    BytesStored(b);
  }

  lemma {:induction false} BytesStored(b: seq<byte>)
    ensures LE(FromLE(b), |b|) == b
  {
    if b != [] {
      BytesStored(b[1..]);
      assert FromLE(b) / 256 == FromLE(b[1..]);
    }
  }

  // How the writer's headers begin: version 4.5 is needed, the name is in UTF-8, the content is
  // stored as it is, and there is no time.
  lemma HeadersBegin(z: Zlib, f: Stored)
    ensures LocalOf(z, f).Encode()[..14] == [80, 75, 3, 4, 45, 0, 0, 8, 0, 0, 0, 0, 0, 0]
    ensures CentralOf(z, f).Encode()[..16] == [80, 75, 1, 2, 45, 0, 45, 0, 0, 8, 0, 0, 0, 0, 0, 0]
  {
    hide *;
    Signatures();
    TwoBytes(45);
    TwoBytes(0x0800);
    TwoBytes(0);
    Beginning(z, f);
  }

  lemma TwoBytes(n: nat)
    ensures LE(n, 2) == [n % 256, n / 256 % 256]
  {
    assert LE(n / 256, 1) == [n / 256 % 256] + LE(n / 256 / 256, 0);
  }

  lemma Beginning(z: Zlib, f: Stored)
    ensures LocalOf(z, f).Encode()[..14] ==
            LE(ZIP_LOCAL_HEADER, 4) + LE(45, 2) + LE(0x0800, 2) + LE(0, 2) + LE(0, 2) + LE(0, 2)
    ensures CentralOf(z, f).Encode()[..16] ==
            LE(ZIP_CENTRAL_DIRECTORY_HEADER, 4) + LE(45, 2) + LE(45, 2) + LE(0x0800, 2) + LE(0, 2) + LE(0, 2) + LE(0, 2)
  {
    hide Zlib.Crc, LE;
  }

  // A zip64 block holds exactly the sizes, the offset and the disk number that are all ones
  // elsewhere, in this order.
  lemma Zip64Places(block: seq<byte>, s: Sizes)
    ensures var a := if s.uncompressed == 0xffffffff then 8 else 0;
            var b := if s.compressed == 0xffffffff then a + 8 else a;
            var c := if s.offset == 0xffffffff then b + 8 else b;
            var d := if s.disk == 0xffff then c + 4 else c;
            && (Zip64(block, s).Some? <==> |block| == d)
            && (|block| == d ==>
                  var t := Zip64(block, s).value;
                  && t.uncompressed == (if 0 < a then FromLE(block[..a]) else s.uncompressed)
                  && t.compressed == (if a < b then FromLE(block[a..b]) else s.compressed)
                  && t.offset == (if b < c then FromLE(block[b..c]) else s.offset)
                  && t.disk == (if c < d then FromLE(block[c..d]) else s.disk))
  {
    hide FromLE, Take;
    var a := if s.uncompressed == 0xffffffff then 8 else 0;
    var b := if s.compressed == 0xffffffff then a + 8 else a;
    var c := if s.offset == 0xffffffff then b + 8 else b;
    var d := if s.disk == 0xffff then c + 4 else c;
    assert block[0..] == block;
    WidenFrom(block, 0, s.uncompressed, 0xffffffff, 8);
    if a <= |block| {
      WidenFrom(block, a, s.compressed, 0xffffffff, 8);
      if b <= |block| {
        WidenFrom(block, b, s.offset, 0xffffffff, 8);
        if c <= |block| {
          WidenFrom(block, c, s.disk, 0xffff, 4);
        }
      }
    }
  }

  lemma WidenFrom(block: seq<byte>, pos: nat, value: nat, sentinel: nat, width: nat)
    requires pos <= |block|
    ensures Widen(block[pos..], value, sentinel, width) ==
            if value != sentinel then Some((value, block[pos..]))
            else if |block| < pos + width then None
            else Some((FromLE(block[pos..pos + width]), block[pos + width..]))
  {
    if value == sentinel && pos + width <= |block| {
      TakeFrom(block, pos, width);
    }
  }

  // Extra fields are read one after the other: zip64 blocks widen the sizes, others change
  // nothing, and those of an unknown kind are complained about.
  lemma ExtrasInTurn(kind: nat, block: seq<byte>, rest: seq<byte>, s: Sizes, log: seq<Warning>)
    requires kind < 0x1_0000 && |block| < 0x1_0000
    ensures var known := [0x0009, 0x000a, 0x000c, 0x000d, 0x0065, 0x2605, 0x2705, 0x2805, 0x5455, 0x6375, 0x7075,
                          0x7875, 0xa220];
            Extras(ExtraHeader(kind, |block|).Encode() + block + rest, s, log) ==
            if kind != 1 then Extras(rest, s, if kind in known then log else log + [UnknownExtra(kind)])
            else if Zip64(block, s).Some? then Extras(rest, Zip64(block, s).value, log)
            else None
  {
    hide ExtraHeader.Encode, ExtraHeader.Decode, Zip64;
    var e := ExtraHeader(kind, |block|).Encode();
    ExtraHeader(kind, |block|).RoundTrip();
    var b := e + block + rest;
    assert b[..EXTRA_SIZE] == e && b[EXTRA_SIZE..EXTRA_SIZE + |block|] == block;
    assert b[EXTRA_SIZE + |block|..] == rest;
  }

  // The two headers of an entry say the same; the local one has its own extra fields.
  predicate Agree(local: LocalHeader, localName: Name, central: CentralHeader, centralName: Name) {
    && local.(signature := 0, extraLength := 0) ==
       LocalHeader(0, central.versionExtract, central.flags, central.compression, central.modificationTime,
                   central.modificationDate, central.crc, central.compressedSize, central.uncompressedSize,
                   central.nameLength, 0)
    && localName == centralName
  }

  // What becomes of an entry whose headers are good: it is refused for its name, taken for a
  // directory, refused as a duplicate, or listed.
  lemma NameTaken(z: Zlib, file: seq<byte>, central: CentralHeader, name: Name, data: nat, len: nat, r: Listing)
    requires data + len <= |file|
    ensures var directory := name != [] && name[|name| - 1] == SLASH;
            var n := ListName(z, file, central, name, data, len, r);
            && (n.Some? <==> InsideOrDirectory(name) && BACKSLASH !in name
                              && (directory || forall e :: e in r.entries ==> e.name != name))
            && (n.Some? ==>
                  && n.value.entries == (if directory then r.entries
                       else r.entries + [Entry(Backslashed(name), data, len)])
                  && n.value.log == r.log
                       + (if central.internalAttributes == 0 then [] else [UnknownAttributes])
                       + (if directory then (if len == 0 then [] else [NonEmptyDirectory])
                          else if z.Crc(file[data..data + len]) == central.crc then [] else [CrcMismatch]))
  {
    hide BadName, InsideOrDirectory, Replace, Zlib.Crc;
    NameRefused(name);
    assert len == 0 ==> file[data..data + len] == [];
  }

  // Exactly when a record without extra fields is accepted.  Its local header starts where it
  // says and is complete before the central record at `at`.
  lemma PlainRecord(z: Zlib, file: seq<byte>, at: nat, central: CentralHeader, local: LocalHeader, r: Listing)
    requires central.Fits() && central.extraLength == 0 && local.extraLength == 0 && local.signature == ZIP_LOCAL_HEADER
    requires at + CENTRAL_SIZE + central.nameLength + central.commentLength <= |file| <= TWO64 - 0x1_0000_0000
    requires central.offset + LOCAL_SIZE + local.nameLength <= at && local.flags < 0x1_0000
    requires local == LocalHeader.Decode(file[central.offset..central.offset + LOCAL_SIZE])
    ensures var start := central.offset + LOCAL_SIZE;
            var data, len := start + local.nameLength, central.uncompressedSize;
            var centralName := file[at + CENTRAL_SIZE..at + CENTRAL_SIZE + central.nameLength];
            var log := if Agree(local, file[start..data], central, centralName) then r.log
              else r.log + [HeaderMismatch];
            var good :=
              && central.diskNumber == 0 && local.versionExtract <= 45 && local.compression == 0
              && len == central.compressedSize && data + len <= at
              && local.flags in {0, 2, 4, 6, 16, 18, 20, 22, 0x0800, 0x0802, 0x0804, 0x0806, 0x0810, 0x0812, 0x0814,
                                 0x0816};
            FileRecord(z, file, at, central, r) ==
            if good then ListName(z, file, central, file[start..data], data, len, Listing(r.entries, log)) else None
  {
    hide LocalHeader.Decode, BadFlags, ListName;
    var start := central.offset + LOCAL_SIZE;
    var name := file[start..start + local.nameLength];
    FlagsAccepted(local.flags);
    assert LocalPart(file, at, central.offset) == Some((local, name));
    var centralName := file[at + CENTRAL_SIZE..at + CENTRAL_SIZE + central.nameLength];
    var buf := file[at + CENTRAL_SIZE..at + CENTRAL_SIZE + (central.nameLength + 0 + central.commentLength)];
    assert name[..local.nameLength] == name && name[local.nameLength..] == [];
    assert buf[..central.nameLength] == centralName && buf[central.nameLength..central.nameLength] == [];
  }

  // The central record at `offset` is accepted and leads from one listing to the next.
  predicate RecordTaken(z: Zlib, file: seq<byte>, offset: nat, before: Listing, after: Listing) {
    && offset + CENTRAL_SIZE <= |file|
    && FileRecord(z, file, offset, CentralHeader.Decode(file[offset..offset + CENTRAL_SIZE]), before) == Some(after)
  }

  ghost predicate AllTaken(z: Zlib, file: seq<byte>, starts: seq<nat>, listings: seq<Listing>)
    requires |listings| == |starts|
  {
    forall i {:trigger starts[i]} :: 0 <= i < |starts| - 1 ==>
      RecordTaken(z, file, starts[i], listings[i], listings[i + 1])
  }

  // Conversely to CentralTiles: records that tile the directory, each accepted in its turn, make
  // an accepted directory.  listings[i] is what is listed before the i-th record.
  lemma {:induction false} TilesAccepted(z: Zlib, file: seq<byte>, starts: seq<nat>, listings: seq<Listing>,
      length: nat)
    requires |listings| == |starts| > 0 && starts[|starts| - 1] == starts[0] + length
    requires Tile(file, starts) && AllTaken(z, file, starts, listings)
    ensures Central(z, file, starts[0], |starts| - 1, length, listings[0]) == Some(listings[|starts| - 1])
    decreases |starts|
  {
    hide FileRecord, CentralHeader.Decode;
    if |starts| > 1 {
      assert IsCentral(file, starts[0], starts[1]) && RecordTaken(z, file, starts[0], listings[0], listings[1]);
      var rest := starts[1..];
      LaterTiles(z, file, starts, listings);
      Increasing(file, rest);
      TilesAccepted(z, file, rest, listings[1..], length - (starts[1] - starts[0]));
    }
  }

  lemma LaterTiles(z: Zlib, file: seq<byte>, starts: seq<nat>, listings: seq<Listing>)
    requires |listings| == |starts| > 1 && Tile(file, starts) && AllTaken(z, file, starts, listings)
    ensures Tile(file, starts[1..]) && AllTaken(z, file, starts[1..], listings[1..])
  {
    hide IsCentral, RecordTaken;
    var rest := starts[1..];
    forall i {:trigger rest[i]} | 0 <= i < |rest| - 1
      ensures IsCentral(file, rest[i], rest[i + 1])
      ensures RecordTaken(z, file, rest[i], listings[1..][i], listings[1..][i + 1])
    {
      assert rest[i] == starts[i + 1];
    }
  }

  lemma {:induction false} Increasing(file: seq<byte>, starts: seq<nat>)
    requires Tile(file, starts)
    ensures starts[0] <= starts[|starts| - 1]
    decreases |starts|
  {
    hide CentralHeader.Decode;
    if |starts| > 1 {
      assert IsCentral(file, starts[0], starts[1]);
      var rest := starts[1..];
      forall i {:trigger rest[i]} | 0 <= i < |rest| - 1 ensures IsCentral(file, rest[i], rest[i + 1]) {
        assert rest[i] == starts[i + 1] && IsCentral(file, starts[i + 1], starts[i + 2]);
      }
      Increasing(file, rest);
    }
  }

  // ---------- the end of an archive ----------

  // There is an end record whose comment of length i fills the rest of the file.
  predicate EndsWith(file: seq<byte>, i: nat) {
    && i + END_SIZE <= |file|
    && var e := EndRecord.Decode(file[|file| - i - END_SIZE..|file| - i]);
       e.signature == ZIP_END_RECORD && e.commentLength == i
  }

  // The end record with the shortest comment is taken; its comment must be shorter than 65535
  // bytes.
  lemma {:induction false} ShortestComment(z: Zlib, file: seq<byte>, from: nat, i: nat)
    requires from <= i < 0xffff && EndsWith(file, i) && forall j :: from <= j < i ==> !EndsWith(file, j)
    ensures var pos := |file| - i - END_SIZE;
            Scan(z, file, from) == FromEnd(z, file, pos, EndRecord.Decode(file[pos..pos + END_SIZE]))
    decreases i - from
  {
    hide FromEnd, EndRecord.Decode;
    if from < i {
      assert !EndsWith(file, from);
      ShortestComment(z, file, from + 1, i);
    }
  }

  lemma {:induction false} NoEndRecord(z: Zlib, file: seq<byte>, from: nat)
    requires from <= 0xffff && forall j :: from <= j < 0xffff ==> !EndsWith(file, j)
    ensures Scan(z, file, from) == None
    decreases 0xffff - from
  {
    hide FromEnd, EndRecord.Decode;
    if from < 0xffff {
      assert !EndsWith(file, from);
      NoEndRecord(z, file, from + 1);
    }
  }

  // There is a zip64 locator in front of the end record at `pos`.
  predicate HasLocator(file: seq<byte>, pos: nat)
    requires pos <= |file|
  {
    pos > 20 && End64Locator.Decode(file[pos - 20..pos]).signature == ZIP_END64_LOCATOR
  }

  // It is a good one: there is one disk, and it leads to a zip64 record before the end record that
  // needs no version above 4.5, ends before the end record and is filled by its blocks.
  predicate LocatorGood(file: seq<byte>, pos: nat)
    requires pos <= |file| && HasLocator(file, pos)
  {
    var l := End64Locator.Decode(file[pos - 20..pos]);
    && l.diskCount == 1 && l.endRecordDisk == 0 && l.endRecordOffset < pos && l.endRecordOffset + 56 <= |file|
    && var w := End64Record.Decode(file[l.endRecordOffset..l.endRecordOffset + 56]);
    && w.signature == ZIP_END64_RECORD && w.versionExtract <= 45
    && (w.size + l.endRecordOffset + 12) % TWO64 < pos
    && (12 + w.size) % TWO64 >= 56
    && Blocks(file, l.endRecordOffset + 56, (12 + w.size) % TWO64 - 56)
  }

  function WideRecord(file: seq<byte>, pos: nat): End64Record
    requires pos <= |file| && HasLocator(file, pos) && LocatorGood(file, pos)
  {
    var l := End64Locator.Decode(file[pos - 20..pos]);
    End64Record.Decode(file[l.endRecordOffset..l.endRecordOffset + 56])
  }

  // What follows from the end record at `pos`: a locator that is not good, more than one disk, or
  // counts that differ refuse the file; else the directory is read.  Fields of the end record
  // that are all ones give way to those of the zip64 record, if there is one.
  lemma EndDecides(z: Zlib, file: seq<byte>, pos: nat, r: EndRecord)
    requires pos + END_SIZE <= |file|
    ensures var wide := HasLocator(file, pos);
            if wide && !LocatorGood(file, pos) then FromEnd(z, file, pos, r) == None
            else
              var disk := if wide && r.currentDisk == 0xffff then WideRecord(file, pos).currentDisk else r.currentDisk;
              var first := if wide && r.directoryDisk == 0xffff then WideRecord(file, pos).directoryDisk
                else r.directoryDisk;
              var here := if wide && r.entryCountDisk == 0xffff then WideRecord(file, pos).entryCountDisk
                else r.entryCountDisk;
              var count := if wide && r.entryCount == 0xffff then WideRecord(file, pos).entryCount else r.entryCount;
              var size := if wide && r.directorySize == 0xffffffff then WideRecord(file, pos).directorySize
                else r.directorySize;
              var offset := if wide && r.directoryOffset == 0xffffffff then WideRecord(file, pos).directoryOffset
                else r.directoryOffset;
              FromEnd(z, file, pos, r) == if disk == 0 && first == 0 && here == count then
                  Central(z, file, offset, count, size, Listing([], []))
                else None
  {
    hide Central, End64Locator.Decode, End64Record.Decode, Blocks;
    if HasLocator(file, pos) {
      var l := End64Locator.Decode(file[pos - 20..pos]);
      if l.endRecordOffset + 56 <= |file| {
        var w := End64Record.Decode(file[l.endRecordOffset..l.endRecordOffset + 56]);
        SumWraps(w.size, l.endRecordOffset);
      }
    }
  }

  lemma SumWraps(a: nat, b: nat)
    ensures Add64(Add64(a, b), 12) == (a + b + 12) % TWO64
  {
  }

  // A block from p to q in the extensible part of a zip64 end record.
  predicate BlockFrom(file: seq<byte>, p: nat, q: nat) {
    p + 6 <= |file| && q == p + 6 + FromLE(file[p + 2..p + 6])
  }

  ghost predicate BlockChain(file: seq<byte>, starts: seq<nat>) {
    starts != [] && forall i {:trigger starts[i]} :: 0 < i < |starts| ==> BlockFrom(file, starts[i - 1], starts[i])
  }

  // The loop over the blocks accepts exactly a chain of blocks that fills the rest of the record.
  lemma BlocksExactly(file: seq<byte>, offset: nat, size: nat)
    ensures Blocks(file, offset, size) <==>
            exists starts :: BlockChain(file, starts) && starts[0] == offset && starts[|starts| - 1] == offset + size
  {
    hide Blocks, BlockFrom;
    if Blocks(file, offset, size) {
      var starts := ChainOf(file, offset, size);
    }
    forall starts | BlockChain(file, starts) && starts[0] == offset && starts[|starts| - 1] == offset + size
      ensures Blocks(file, offset, size)
    {
      ChainAccepted(file, offset, size, starts);
    }
  }

  lemma {:induction false} ChainOf(file: seq<byte>, offset: nat, size: nat) returns (starts: seq<nat>)
    requires Blocks(file, offset, size)
    ensures BlockChain(file, starts) && starts[0] == offset && starts[|starts| - 1] == offset + size
    decreases size
  {
    hide Take, FromLE;
    if size == 0 {
      starts := [offset];
    } else {
      var next := BlockRead(file, offset);
      var rest := ChainOf(file, next, offset + size - next);
      starts := [offset] + rest;
    }
  }

  lemma BlockRead(file: seq<byte>, p: nat) returns (q: nat)
    requires p + BLOCK_SIZE <= |file|
    ensures BlockFrom(file, p, q) && q == p + BLOCK_SIZE + BlockHeader.Decode(file[p..p + BLOCK_SIZE]).size
  {
    hide Take, FromLE;
    BlockHeader.Places(file[p..p + BLOCK_SIZE]);
    assert file[p..p + BLOCK_SIZE][2..6] == file[p + 2..p + 6];
    q := p + BLOCK_SIZE + BlockHeader.Decode(file[p..p + BLOCK_SIZE]).size;
  }

  lemma {:induction false} ChainAccepted(file: seq<byte>, offset: nat, size: nat, starts: seq<nat>)
    requires BlockChain(file, starts) && starts[0] == offset && starts[|starts| - 1] == offset + size
    ensures Blocks(file, offset, size)
    decreases |starts|
  {
    hide Take, FromLE, BlockHeader.Decode;
    if |starts| > 1 {
      assert BlockFrom(file, starts[0], starts[1]);
      var next := BlockRead(file, offset);
      Forward(file, starts[1..]);
      ChainAccepted(file, next, offset + size - next, starts[1..]);
    }
  }

  lemma {:induction false} Forward(file: seq<byte>, starts: seq<nat>)
    requires BlockChain(file, starts)
    ensures starts[0] <= starts[|starts| - 1]
    decreases |starts|
  {
    if |starts| > 1 {
      assert BlockFrom(file, starts[0], starts[1]);
      Forward(file, starts[1..]);
    }
  }
}
