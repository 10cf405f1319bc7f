// The archive writer: stored entries, each with a local record, then the central directory
// and the three end records, always in zip64 form.
module ArchiveWriter {
  import opened Arithmetic
  import opened Bytes
  import opened ZipFormat

  // A file name in UTF-8.
  type Name = seq<byte>

  const SLASH: byte := 47
  const BACKSLASH: byte := 92

  function Replace(name: Name, from: byte, to: byte): (r: Name)
    ensures |r| == |name|
    ensures forall i :: 0 <= i < |name| ==> r[i] == if name[i] == from then to else name[i]
  {
    seq(|name|, i requires 0 <= i < |name| => if name[i] == from then to else name[i])
  }

  // Zip names have slashes, listed names have backslashes.
  function Slashed(name: Name): Name {
    Replace(name, BACKSLASH, SLASH)
  }

  function Backslashed(name: Name): Name {
    Replace(name, SLASH, BACKSLASH)
  }

  // zlib's crc32 as a fold over the bytes.
  datatype Zlib = Zlib(start: nat, step: (nat, byte) -> nat) {
    function Fold(crc: nat, data: seq<byte>): nat
      decreases data
    {
      if data == [] then crc else Fold(step(crc, data[0]) % WORD, data[1..])
    }

    function Crc(data: seq<byte>): nat {
      Fold(start % WORD, data)
    }

    lemma {:induction false} FoldBounded(crc: nat, data: seq<byte>)
      requires crc < WORD
      ensures Fold(crc, data) < WORD
      decreases data
    {
      if data != [] {
        FoldBounded(step(crc, data[0]) % WORD, data[1..]);
      }
    }

    // The checksum may be taken piece by piece.
    lemma {:induction false} FoldPieces(crc: nat, a: seq<byte>, b: seq<byte>)
      ensures Fold(Fold(crc, a), b) == Fold(crc, a + b)
      decreases a
    {
      if a == [] {
        assert a + b == b;
      } else {
        FoldPieces(step(crc, a[0]) % WORD, a[1..], b);
        assert (a + b)[1..] == a[1..] + b;
      }
    }
  }

  // An entry to be stored; the name is in slash form.
  datatype Stored = Stored(name: Name, content: seq<byte>)

  function LocalOf(z: Zlib, f: Stored): LocalHeader {
    LocalHeader(ZIP_LOCAL_HEADER, ZIP_ZIP64_VERSION, 0x0800, 0, 0, 0, z.Crc(f.content),
                0xffffffff, 0xffffffff, |f.name|, EXTRA_SIZE + 16)
  }

  function LocalExtra(f: Stored): (r: seq<byte>)
    ensures |r| == EXTRA_SIZE + 16
  {
    ExtraHeader(0x0001, 16).Encode() + (LE(|f.content|, 8) + (LE(|f.content|, 8) + []))
  }

  // A local record without its content.
  function LocalHead(z: Zlib, f: Stored): (r: seq<byte>)
    ensures |r| == LOCAL_SIZE + |f.name| + EXTRA_SIZE + 16
  {
    LocalOf(z, f).Encode() + f.name + LocalExtra(f)
  }

  function LocalRecord(z: Zlib, f: Stored): (r: seq<byte>)
    ensures |r| == LOCAL_SIZE + |f.name| + EXTRA_SIZE + 16 + |f.content|
  {
    LocalHead(z, f) + f.content
  }

  function CentralOf(z: Zlib, f: Stored): CentralHeader {
    CentralHeader(ZIP_CENTRAL_DIRECTORY_HEADER, ZIP_ZIP64_VERSION, ZIP_ZIP64_VERSION, 0x0800, 0, 0, 0,
                  z.Crc(f.content), 0xffffffff, 0xffffffff, |f.name|, EXTRA_SIZE + 24, 0, 0, 0, 0, 0xffffffff)
  }

  function CentralExtra(f: Stored, offset: nat): (r: seq<byte>)
    ensures |r| == EXTRA_SIZE + 24
  {
    ExtraHeader(0x0001, 24).Encode() + (LE(|f.content|, 8) + (LE(|f.content|, 8) + (LE(offset, 8) + [])))
  }

  function CentralRecord(z: Zlib, f: Stored, offset: nat): (r: seq<byte>)
    ensures |r| == CENTRAL_SIZE + |f.name| + EXTRA_SIZE + 24
  {
    CentralOf(z, f).Encode() + f.name + CentralExtra(f, offset)
  }

  // The local records, one after the other.
  function Body(z: Zlib, fs: seq<Stored>): seq<byte> {
    if fs == [] then [] else Body(z, fs[..|fs| - 1]) + LocalRecord(z, fs[|fs| - 1])
  }

  // The central records; each points back to where its local record starts.
  function Directory(z: Zlib, fs: seq<Stored>): seq<byte> {
    if fs == [] then []
    else Directory(z, fs[..|fs| - 1]) + CentralRecord(z, fs[|fs| - 1], |Body(z, fs[..|fs| - 1])|)
  }

  const END: EndRecord := EndRecord(ZIP_END_RECORD, 0, 0, 0xffff, 0xffff, 0xffffffff, 0xffffffff, 0)

  // The zip64 end record of a file with these parts.
  function End64Of(body: seq<byte>, directory: seq<byte>, entries: nat): End64Record {
    End64Record(ZIP_END64_RECORD, END64_SIZE - 12, ZIP_ZIP64_VERSION, ZIP_ZIP64_VERSION, 0, 0,
                entries, entries, |directory|, |body|)
  }

  function LocatorOf(body: seq<byte>, directory: seq<byte>): End64Locator {
    End64Locator(ZIP_END64_LOCATOR, 0, |body| + |directory|, 1)
  }

  // Local records and directory, followed by the end records.
  function Enclosed(body: seq<byte>, directory: seq<byte>, entries: nat): seq<byte> {
    body + directory + End64Of(body, directory, entries).Encode() + LocatorOf(body, directory).Encode() + END.Encode()
  }

  function Archive(z: Zlib, fs: seq<Stored>): seq<byte> {
    Enclosed(Body(z, fs), Directory(z, fs), |fs|)
  }

  predicate DistinctNames(fs: seq<Stored>) {
    forall i, j :: 0 <= i < j < |fs| ==> fs[i].name != fs[j].name
  }

  // What a run of Add calls stores: names that were used before are refused.
  function Accepted(adds: seq<Stored>): seq<Stored> {
    if adds == [] then []
    else
      var before := Accepted(adds[..|adds| - 1]);
      var next := Stored(Slashed(adds[|adds| - 1].name), adds[|adds| - 1].content);
      if exists i :: 0 <= i < |before| && before[i].name == next.name then before else before + [next]
  }

  lemma {:induction false} AcceptedDistinct(adds: seq<Stored>)
    ensures DistinctNames(Accepted(adds))
    ensures forall f :: f in Accepted(adds) ==> BACKSLASH !in f.name
  {
    if adds != [] {
      AcceptedDistinct(adds[..|adds| - 1]);
      var next := Slashed(adds[|adds| - 1].name);
      assert forall i :: 0 <= i < |next| ==> next[i] != BACKSLASH;
    }
  }

  lemma Grouped(file: seq<byte>, a: seq<byte>, b: seq<byte>, c: seq<byte>, d: seq<byte>)
    ensures file + a + b + c + d == file + (a + b + c + d)
  {
  }

  lemma OneMore(z: Zlib, fs: seq<Stored>, f: Stored)
    ensures Body(z, fs + [f]) == Body(z, fs) + LocalRecord(z, f)
    ensures Directory(z, fs + [f]) == Directory(z, fs) + CentralRecord(z, f, |Body(z, fs)|)
  {
    assert (fs + [f])[..|fs|] == fs;
  }

  class GOArchiveWriter {
    const zlib: Zlib
    // the bytes written so far
    var file: seq<byte>
    var isOpen: bool
    var offset: nat
    var directory: seq<byte>
    var entries: nat
    var names: seq<Name>
    // the entries stored so far
    ghost var stored: seq<Stored>

    ghost predicate Valid()
      reads this
    {
      && file == Body(zlib, stored)
      && offset == |file|
      && directory == Directory(zlib, stored)
      && entries == |stored|
      && |names| == |stored|
      && (forall i :: 0 <= i < |stored| ==> names[i] == stored[i].name)
      && DistinctNames(stored)
    }

    constructor (z: Zlib)
      ensures Valid() && stored == [] && !isOpen && zlib == z
    {
      zlib := z;
      file := [];
      isOpen := false;
      offset := 0;
      directory := [];
      entries := 0;
      names := [];
      stored := [];
    }

    method Open()
      modifies this
      ensures Valid() && stored == [] && isOpen
    {
      offset := 0;
      directory := [];
      entries := 0;
      names := [];
      file := [];
      isOpen := true;
      stored := [];
    }

    method Write(data: seq<byte>)
      requires isOpen
      modifies this`file, this`offset
      ensures file == old(file) + data && offset == old(offset) + |data|
    {
      offset := offset + |data|;
      file := file + data;
    }

    method Add(name: Name, content: seq<byte>) returns (ok: bool)
      requires Valid() && isOpen
      modifies this
      ensures Valid() && isOpen
      ensures ok <==> forall i :: 0 <= i < |old(stored)| ==> old(stored)[i].name != Slashed(name)
      ensures stored == if ok then old(stored) + [Stored(Slashed(name), content)] else old(stored)
    {
      hide LE, LocalHeader.Encode, CentralHeader.Encode, ExtraHeader.Encode, Replace, Zlib.Crc, Body, Directory;
      var fname := Slashed(name);
      var i := 0;
      while i < |names|
        invariant 0 <= i <= |names|
        invariant forall j :: 0 <= j < i ==> names[j] != fname
      {
        if names[i] == fname {
          return false;
        }
        i := i + 1;
      }
      ghost var f := Stored(fname, content);
      var crc := zlib.Crc(content);
      var sig := LocalHeader(ZIP_LOCAL_HEADER, ZIP_ZIP64_VERSION, 0x0800, 0, 0, 0, crc,
                             0xffffffff, 0xffffffff, |fname|, EXTRA_SIZE + 16);
      var locext := ExtraHeader(0x0001, 16).Encode() + (LE(|content|, 8) + (LE(|content|, 8) + []));
      var csig := CentralHeader(ZIP_CENTRAL_DIRECTORY_HEADER, ZIP_ZIP64_VERSION, sig.versionExtract, sig.flags,
                                sig.compression, sig.modificationTime, sig.modificationDate, sig.crc,
                                sig.compressedSize, sig.uncompressedSize, sig.nameLength, EXTRA_SIZE + 24,
                                0, 0, 0, 0, 0xffffffff);
      var centralext := ExtraHeader(0x0001, 24).Encode()
        + (LE(|content|, 8) + (LE(|content|, 8) + (LE(offset, 8) + [])));
      names := names + [fname];
      Write(sig.Encode());
      Write(fname);
      Write(locext);
      Write(content);
      directory := directory + (csig.Encode() + fname + centralext);
      entries := entries + 1;
      stored := stored + [f];
      Grouped(old(file), sig.Encode(), fname, locext, content);
      OneMore(zlib, old(stored), f);
      return true;
    }

    // Writes the directory and the end records; the file is then complete.
    method Close() returns (ok: bool)
      requires Valid()
      modifies this
      ensures ok == old(isOpen) && !isOpen
      ensures ok ==> file == Archive(zlib, old(stored))
    {
      hide LE, End64Record.Encode, EndRecord.Encode, End64Locator.Encode, Body, Directory;
      if !isOpen {
        return false;
      }
      var end64 := End64Record(ZIP_END64_RECORD, END64_SIZE - 12, ZIP_ZIP64_VERSION, ZIP_ZIP64_VERSION, 0, 0,
                               entries, entries, |directory|, offset);
      Write(directory);
      var locator64 := End64Locator(ZIP_END64_LOCATOR, 0, offset, 1);
      var end := EndRecord(ZIP_END_RECORD, 0, 0, 0xffff, 0xffff, 0xffffffff, 0xffffffff, 0);
      Write(end64.Encode());
      Write(locator64.Encode());
      Write(end.Encode());
      isOpen := false;
      return true;
    }
  }

  // A whole run: open, add everything, close.
  method WriteArchive(z: Zlib, adds: seq<Stored>) returns (file: seq<byte>)
    ensures file == Archive(z, Accepted(adds))
  {
    hide GOArchiveWriter.Valid, Archive;
    var w := new GOArchiveWriter(z);
    w.Open();
    var i := 0;
    while i < |adds|
      invariant 0 <= i <= |adds|
      invariant fresh(w) && w.zlib == z && w.Valid() && w.isOpen && w.stored == Accepted(adds[..i])
    {
      var ok := w.Add(adds[i].name, adds[i].content);
      assert adds[..i + 1][..i] == adds[..i];
      i := i + 1;
    }
    assert adds[..|adds|] == adds;
    var ok := w.Close();
    file := w.file;
  }
}
