// What the chunks of a wave file mean, byte by byte.
module WaveLaws {
  import opened Bytes
  import opened Wave

  // The format chunk: PCM with 0, 8, 16 or 24 bits, or 32-bit floating point.
  lemma FormatsAccepted(w: Wave, b: seq<byte>)
    requires |b| >= 16
    ensures WithFormat(w, b).Ok? <==>
            || (b[..2] == [1, 0] && b[14] in {0, 8, 16, 24} && b[15] == 0)
            || (b[..2] == [3, 0] && b[14] == 32 && b[15] == 0)
    ensures WithFormat(w, b).Ok? ==>
              WithFormat(w, b).value == w.(channels := b[2] + 256 * (b[3] as int), sampleRate := FromLE(b[4..8]),
                                           bytesPerSample := b[14] / 8)
  {
    hide FromLE;
    TwoWeights(b[0..2]);
    TwoWeights(b[2..4]);
    TwoWeights(b[14..16]);
  }

  // Where the k-th cue point says it is.
  function CuePosition(b: seq<byte>, k: nat): nat
    requires 4 + 24 * (k + 1) <= |b|
  {
    FromLE(b[24 + 24 * k..28 + 24 * k])
  }

  // The cue chunk: of several cue points the latest counts, and without any the wave has none.
  lemma LatestCueCounts(w: Wave, b: seq<byte>)
    ensures WithCue(w, b).Ok? <==> |b| >= 4 && |b| >= 4 + 24 * FromLE(b[..4])
    ensures WithCue(w, b).Ok? ==>
              var n, r := FromLE(b[..4]), WithCue(w, b).value;
              && r.hasRelease == (n > 0) && w.(hasRelease := n > 0, cuePoint := r.cuePoint) == r
              && (n == 0 ==> r.cuePoint == w.cuePoint)
              && (n > 0 ==>
                    && (forall k: nat :: k < n ==> CuePosition(b, k) <= r.cuePoint)
                    && (exists k: nat :: k < n && CuePosition(b, k) == r.cuePoint))
  {
    if |b| >= 4 {
      assert b[0..4] == b[..4];
      var n := FromLE(b[..4]);
      if |b| >= 4 + 24 * n {
        LatestCue(b, n);
      }
    }
  }

  lemma {:induction false} LatestCue(b: seq<byte>, n: nat)
    requires 4 + 24 * n <= |b|
    ensures forall k: nat :: k < n ==> CuePosition(b, k) <= LastCue(b, n)
    ensures n > 0 ==> exists k: nat :: k < n && CuePosition(b, k) == LastCue(b, n)
    ensures n == 0 ==> LastCue(b, n) == 0
  {
    hide FromLE;
    if n > 0 {
      LatestCue(b, n - 1);
      assert Field(b, 4 + 24 * (n - 1) + 20, 4) == CuePosition(b, n - 1);
      assert CuePosition(b, n - 1) >= 0;
    }
  }

  // The sampler chunk: note and pitch, and the start and end of every loop.
  lemma SamplerFields(w: Wave, b: seq<byte>)
    ensures WithSampler(w, b).Ok? <==> |b| >= 36 && |b| >= 36 + 24 * FromLE(b[28..32])
    ensures WithSampler(w, b).Ok? ==>
              var n, r := FromLE(b[28..32]), WithSampler(w, b).value;
              && r == w.(midiNote := FromLE(b[12..16]), pitch := FromLE(b[16..20]), loops := r.loops)
              && |r.loops| == n
              && forall k: nat :: k < n ==>
                   r.loops[k] == Loop(FromLE(b[44 + 24 * k..48 + 24 * k]), FromLE(b[48 + 24 * k..52 + 24 * k]))
  {
    hide FromLE;
    if |b| >= 36 && |b| >= 36 + 24 * FromLE(b[28..32]) {
      EveryLoop(b, FromLE(b[28..32]));
    }
  }

  lemma {:induction false} EveryLoop(b: seq<byte>, n: nat)
    requires 36 + 24 * n <= |b|
    ensures forall k: nat :: k < n ==>
              LoopsIn(b, n)[k] == Loop(FromLE(b[44 + 24 * k..48 + 24 * k]), FromLE(b[48 + 24 * k..52 + 24 * k]))
  {
    hide FromLE;
    if n > 0 {
      EveryLoop(b, n - 1);
    }
  }

  // A chunk of an unknown kind is skipped, and with it the byte that makes its size even, if
  // there is one.
  lemma UnknownSkipped(b: seq<byte>, offset: nat, length: nat, w: Wave, hasFormat: bool)
    requires offset + 8 <= length <= |b|
    requires b[offset..offset + 4] !in [[102, 109, 116, 32], [99, 117, 101, 32], [115, 109, 112, 108],
                                        [100, 97, 116, 97]]
    ensures var size := FromLE(b[offset + 4..offset + 8]);
            var end := offset + 8 + size;
            Walk(b, offset, length, w, hasFormat) ==
            Walk(b, if size % 2 == 1 && end < length then end + 1 else end, length, w, hasFormat)
  {
    hide FromLE;
    var ids := [[102, 109, 116, 32], [99, 117, 101, 32], [115, 109, 112, 108], [100, 97, 116, 97]];
    assert FMT == ids[0] && CUE == ids[1] && SMPL == ids[2] && DATA == ids[3];
  }

  // A file starts with RIFF, its size and WAVE.  Its chunks go on to the end of the RIFF chunk, less
  // the samples that are packed elsewhere, or to the end of the file if that comes first; a size
  // that is too small for the packed samples is refused, and so is a wave without samples.
  lemma BeginningRead(b: seq<byte>, w: Wave, packed: nat)
    ensures |b| < 12 || b[..4] != [82, 73, 70, 70] ==> OpenedBytes(b, w, packed) == Err(NotRiff)
    ensures |b| >= 12 && b[..4] == [82, 73, 70, 70] && b[8..12] != [87, 65, 86, 69] ==>
              OpenedBytes(b, w, packed) == Err(NotWave)
    ensures |b| >= 12 && b[..4] == [82, 73, 70, 70] && b[8..12] == [87, 65, 86, 69] ==>
              var size := FromLE(b[4..8]);
              if size < packed then OpenedBytes(b, w, packed) == Err(Inconsistent)
              else
                var walked := Walk(b, 12, if size + 8 < |b| + packed then size + 8 - packed else |b|, w, false);
                OpenedBytes(b, w, packed) ==
                if walked.Err? then walked
                else if walked.value.samples in {Raw([]), Values([])} then Err(NoSamples)
                else Cleaned(walked.value)
  {
    hide FromLE, Walk, Cleaned;
  }

  // What stands behind the end of the RIFF chunk is not looked at.
  lemma TrailingIgnored(b: seq<byte>, more: seq<byte>)
    requires |b| >= 12 && FromLE(b[4..8]) + 8 == |b|
    ensures Opened(File(b + more)) == Opened(File(b))
  {
    hide FromLE, Walk, Cleaned;
    var c := b + more;
    assert c[..4] == b[..4] && c[4..8] == b[4..8] && c[8..12] == b[8..12] && c[..|b|] == b[..|b|];
    SameBeginning(c, b, 12, |b|, Empty(), false);
  }

  lemma {:induction false} SameBeginning(b: seq<byte>, c: seq<byte>, offset: nat, length: nat, w: Wave, hasFormat: bool)
    requires length <= |b| && length <= |c| && b[..length] == c[..length]
    ensures Walk(b, offset, length, w, hasFormat) == Walk(c, offset, length, w, hasFormat)
    decreases length - offset
  {
    hide FromLE, WithFormat, WithCue, WithSampler;
    if offset + 8 <= length {
      SamePart(b, c, length, offset, offset + 4);
      SamePart(b, c, length, offset + 4, offset + 8);
      var id, size := b[offset..offset + 4], Field(b, offset + 4, 4);
      if offset + 8 + size <= length {
        SamePart(b, c, length, offset + 8, offset + 8 + size);
      }
      var step := WithChunk(b, offset + 8, length, id, size, w, hasFormat);
      if step.Ok? {
        var skipped := if id == DATA && w.packed then 0 else size;
        SameBeginning(b, c, Following(offset + 8, skipped, length), length, step.value, hasFormat || id == FMT);
      }
    }
  }

  lemma SamePart(b: seq<byte>, c: seq<byte>, length: nat, lo: nat, hi: nat)
    requires lo <= hi <= length <= |b| && length <= |c| && b[..length] == c[..length]
    ensures b[lo..hi] == c[lo..hi]
  {
    assert b[lo..hi] == b[..length][lo..hi] && c[lo..hi] == c[..length][lo..hi];
  }

  // At the end of the chunks nothing must be left over.
  lemma ChunksEnd(b: seq<byte>, offset: nat, length: nat, w: Wave, hasFormat: bool)
    requires offset + 8 > length && length <= |b|
    ensures Walk(b, offset, length, w, hasFormat) == if offset == length then Ok(w) else Err(NotAtEnd)
  {
  }

  // What is stored is decoded sample by sample; samples that are cut off are 0.
  lemma {:induction false} EverySample(bytes: seq<byte>, width: nat, n: nat, value: seq<byte> -> int, k: nat)
    requires k < n && width > 0
    ensures RawInts(bytes, width, n, value)[k] ==
            if (k + 1) * width <= |bytes| then assert k * width <= (k + 1) * width;
              value(bytes[k * width..(k + 1) * width])
            else 0
  {
    if |bytes| < width {
      assert (k + 1) * width >= width;
    } else if k == 0 {
      assert bytes[0 * width..1 * width] == bytes[..width];
    } else {
      EverySample(bytes[width..], width, n - 1, value, k - 1);
      assert k * width == (k - 1) * width + width && (k + 1) * width == k * width + width;
      if (k + 1) * width <= |bytes| {
        assert bytes[width..][(k - 1) * width..k * width] == bytes[k * width..(k + 1) * width];
      }
    }
  }

  // The fields of the format chunk that the reader does not look at: bytes a second, and bytes a
  // frame.
  lemma FormatRates(w: Wave)
    requires w.sampleRate * w.channels * w.bytesPerSample < 0x1_0000_0000 && w.channels * w.bytesPerSample < 0x1_0000
    ensures FromLE(FormatBytes(w)[8..12]) == w.sampleRate * w.channels * w.bytesPerSample
    ensures FromLE(FormatBytes(w)[12..14]) == w.channels * w.bytesPerSample
  {
    Ranges();
    hide LE, FromLE;
    var rate, frame := w.sampleRate * w.channels * w.bytesPerSample, w.channels * w.bytesPerSample;
    LERoundTrip(rate, 4);
    LERoundTrip(frame, 2);
    assert FormatBytes(w)[8..12] == LE(rate, 4);
    assert FormatBytes(w)[12..14] == LE(frame, 2);
  }

  // The one cue point that is stored: number 1, in the data chunk.
  lemma CueStored(cue: nat)
    ensures CueBytes(cue) == [1, 0, 0, 0, 1, 0, 0, 0, 0, 0, 0, 0, 100, 97, 116, 97, 0, 0, 0, 0, 0, 0, 0, 0] + LE(cue, 4)
  {
    hide LE;
    Small(0);
    Small(1);
  }

  lemma Small(n: nat)
    requires n < 256
    ensures LE(n, 4) == [n, 0, 0, 0]
  {
    assert LE(0, 3) == [0] + LE(0, 2) && LE(0, 2) == [0] + LE(0, 1) && LE(0, 1) == [0] + LE(0, 0);
  }

  // The sampler chunk tells the length of a sample in nanoseconds.
  lemma PeriodStored(w: Wave)
    requires w.sampleRate > 0
    ensures SamplerBytes(w)[8..12] == LE(1_000_000_000 / w.sampleRate, 4)
  {
    hide LE, LoopsBytes;
  }
}
