// A wave that has been stored as WavPack is opened again.
module WaveRoundTrip {
  import opened Arithmetic
  import opened Bytes
  import opened Wave

  // The integer widths of the program, a known sample format, samples, and a size that fits
  // into the header.
  predicate Storable(w: Wave) {
    && 1 <= w.channels < 0x1_0000 && 1 <= w.bytesPerSample <= 4
    && w.sampleRate < WORD && w.cuePoint < WORD && w.midiNote < WORD && w.pitch < WORD
    && (forall k :: 0 <= k < |w.loops| ==> w.loops[k].start < WORD && w.loops[k].end < WORD)
    && (w.packed <==> w.samples.Values?)
    && Divisor(w) > 0 && Length(w) > 0
    && 4 + |Chunks(w)| + DataLength(w) < WORD
  }

  // ---------- the fields of the chunks ----------

  lemma FieldOf(b: seq<byte>, before: seq<byte>, n: nat, width: nat, after: seq<byte>)
    requires b == before + (LE(n, width) + after) && n < Range(width)
    ensures |before| + width <= |b| && Field(b, |before|, width) == n
  {
    assert b[|before|..|before| + width] == LE(n, width);
    LERoundTrip(n, width);
  }

  lemma SixParts(a: seq<byte>, c: seq<byte>, r: seq<byte>, g: seq<byte>, l: seq<byte>, t: seq<byte>)
    requires |a| == 2 && |c| == 2 && |r| == 4 && |g| == 4 && |l| == 2 && |t| == 2
    ensures var b := a + (c + (r + (g + (l + t))));
            |b| == 16 && b[0..2] == a && b[2..4] == c && b[4..8] == r && b[14..16] == t
  {
  }

  lemma FormatFields(code: nat, channels: nat, rate: nat, average: nat, align: nat, bits: nat)
    requires code < 0x1_0000 && channels < 0x1_0000 && rate < WORD && bits < 0x1_0000
    ensures var b := LE(code, 2) + (LE(channels, 2) + (LE(rate, 4) + (LE(average, 4) + (LE(align, 2) + LE(bits, 2)))));
            |b| == 16 && Field(b, 0, 2) == code && Field(b, 2, 2) == channels && Field(b, 4, 4) == rate
              && Field(b, 14, 2) == bits
  {
    hide LE, FromLE;
    Ranges();
    SixParts(LE(code, 2), LE(channels, 2), LE(rate, 4), LE(average, 4), LE(align, 2), LE(bits, 2));
    LERoundTrip(code, 2);
    LERoundTrip(channels, 2);
    LERoundTrip(rate, 4);
    LERoundTrip(bits, 2);
  }

  lemma FormatRead(v: Wave, w: Wave)
    requires 1 <= w.channels < 0x1_0000 && 1 <= w.bytesPerSample <= 4 && w.sampleRate < WORD
    ensures WithFormat(v, FormatBytes(w))
            == Ok(v.(channels := w.channels, sampleRate := w.sampleRate, bytesPerSample := w.bytesPerSample))
  {
    hide LE, FromLE, Field;
    FormatFields(if w.bytesPerSample == 4 then 3 else 1, w.channels, w.sampleRate,
                 w.sampleRate * w.channels * w.bytesPerSample, w.channels * w.bytesPerSample, w.bytesPerSample * 8);
  }

  lemma OneCue(b: seq<byte>)
    requires |b| == 28
    ensures LastCue(b, 1) == Field(b, 24, 4)
  {
    hide Field;
    assert LastCue(b, 0) == 0;
  }

  lemma CueRead(v: Wave, cue: nat)
    requires cue < WORD
    ensures WithCue(v, CueBytes(cue)) == Ok(v.(hasRelease := true, cuePoint := cue))
  {
    hide LE, FromLE, Field, LastCue;
    Ranges();
    var b := CueBytes(cue);
    var rest := LE(1, 4) + LE(0, 4) + DATA + LE(0, 4) + LE(0, 4) + LE(cue, 4);
    FieldOf(b, [], 1, 4, rest);
    var before := LE(1, 4) + LE(1, 4) + LE(0, 4) + DATA + LE(0, 4) + LE(0, 4);
    assert b == before + (LE(cue, 4) + []);
    FieldOf(b, before, cue, 4, []);
    OneCue(b);
  }

  lemma LoopRead(b: seq<byte>, before: seq<byte>, id: nat, l: Loop, after: seq<byte>)
    requires b == before + LoopBytes(id, l) + after && l.start < WORD && l.end < WORD
    ensures |before| + 24 <= |b| && Loop(Field(b, |before| + 8, 4), Field(b, |before| + 12, 4)) == l
  {
    hide LE, FromLE;
    Ranges();
    var p1 := before + (LE(id, 4) + LE(0, 4));
    var s1 := LE(l.end, 4) + (LE(0, 4) + LE(0, 4)) + after;
    assert b == p1 + (LE(l.start, 4) + s1);
    FieldOf(b, p1, l.start, 4, s1);
    var p2 := p1 + LE(l.start, 4);
    var s2 := LE(0, 4) + LE(0, 4) + after;
    assert b == p2 + (LE(l.end, 4) + s2);
    FieldOf(b, p2, l.end, 4, s2);
  }

  lemma {:induction false} LoopsRead(b: seq<byte>, head: seq<byte>, loops: seq<Loop>, after: seq<byte>)
    requires |head| == 36 && b == head + LoopsBytes(loops) + after
    requires forall k :: 0 <= k < |loops| ==> loops[k].start < WORD && loops[k].end < WORD
    ensures 36 + 24 * |loops| <= |b| && LoopsIn(b, |loops|) == loops
  {
    hide LoopBytes, Field;
    if loops != [] {
      var before := loops[..|loops| - 1];
      var l := loops[|loops| - 1];
      var mine := LoopBytes(|before|, l);
      assert b == head + LoopsBytes(before) + (mine + after);
      LoopsRead(b, head, before, mine + after);
      LoopRead(b, head + LoopsBytes(before), |before|, l, after);
      assert loops == before + [l];
    }
  }

  lemma SamplerRead(v: Wave, w: Wave)
    requires w.midiNote < WORD && w.pitch < WORD && |w.loops| < WORD
    requires forall k :: 0 <= k < |w.loops| ==> w.loops[k].start < WORD && w.loops[k].end < WORD
    ensures WithSampler(v, SamplerBytes(w)) == Ok(v.(loops := w.loops, midiNote := w.midiNote, pitch := w.pitch))
  {
    hide LE, FromLE, LoopsBytes, LoopsIn, Period;
    Ranges();
    var b := SamplerBytes(w);
    var p1 := LE(0, 4) + LE(0, 4) + LE(Period(w.sampleRate), 4);
    var p2 := p1 + LE(w.midiNote, 4);
    var p3 := p2 + LE(w.pitch, 4);
    var p4 := p3 + (LE(0, 4) + LE(0, 4));
    var p5 := p4 + LE(|w.loops|, 4) + LE(0, 4);
    var s4 := LE(0, 4) + LoopsBytes(w.loops);
    var s3 := LE(0, 4) + LE(0, 4) + (LE(|w.loops|, 4) + s4);
    var s2 := LE(w.pitch, 4) + s3;
    assert b == p1 + (LE(w.midiNote, 4) + s2);
    FieldOf(b, p1, w.midiNote, 4, s2);
    assert b == p2 + (LE(w.pitch, 4) + s3);
    FieldOf(b, p2, w.pitch, 4, s3);
    assert b == p4 + (LE(|w.loops|, 4) + s4);
    FieldOf(b, p4, |w.loops|, 4, s4);
    assert b == p5 + LoopsBytes(w.loops) + [];
    LoopsRead(b, p5, w.loops, []);
  }

  // ---------- the walk ----------

  // A chunk of even size that fits: the walk goes on exactly after it.
  lemma WalkChunk(b: seq<byte>, offset: nat, length: nat, v: Wave, hasFormat: bool, id: seq<byte>, body: seq<byte>,
      next: Wave)
    requires At(b, offset, Chunk(id, body)) && offset + 8 + |body| <= length <= |b|
    requires |id| == 4 && id != DATA && |body| % 2 == 0 && |body| < WORD
    requires (id == FMT && WithFormat(v, body) == Ok(next)) || (id == CUE && WithCue(v, body) == Ok(next))
          || (id == SMPL && WithSampler(v, body) == Ok(next))
    ensures Walk(b, offset, length, v, hasFormat) == Walk(b, offset + 8 + |body|, length, next, hasFormat || id == FMT)
  {
    hide LE, FromLE, At, WithFormat, WithCue, WithSampler;
    Ranges();
    ChunkAt(b, offset, id, body);
    ghost var step := WithChunk(b, offset + 8, length, id, |body|, v, hasFormat);
    assert step == Ok(next);
  }

  lemma ChunkAt(b: seq<byte>, offset: nat, id: seq<byte>, body: seq<byte>)
    requires At(b, offset, Chunk(id, body)) && |id| == 4 && |body| < WORD
    ensures offset + 8 + |body| <= |b| && b[offset..offset + 4] == id && Field(b, offset + 4, 4) == |body|
    ensures b[offset + 8..offset + 8 + |body|] == body
  {
    hide LE, FromLE;
    Ranges();
    assert Chunk(id, body) == id + (LE(|body|, 4) + body);
    AtSplit(b, offset, id, LE(|body|, 4) + body);
    AtSplit(b, offset + 4, LE(|body|, 4), body);
    FieldAt(b, offset + 4, |body|, 4);
  }

  // The header of the data, whose samples are elsewhere, ends the file.
  lemma WalkData(b: seq<byte>, offset: nat, n: nat, v: Wave)
    requires At(b, offset, DATA + LE(n, 4)) && offset + 8 == |b| && v.packed && n < WORD
    ensures Walk(b, offset, |b|, v, true) == Ok(v)
  {
    hide LE, FromLE;
    Ranges();
    AtSplit(b, offset, DATA, LE(n, 4));
    FieldAt(b, offset + 4, n, 4);
  }

  // What the walk over the chunks of a stored wave collects.
  function Walked(v: Wave, w: Wave): Wave {
    v.(channels := w.channels, sampleRate := w.sampleRate, bytesPerSample := w.bytesPerSample,
       cuePoint := w.cuePoint, hasRelease := w.cuePoint != NO_CUE,
       midiNote := w.midiNote, pitch := w.pitch, loops := w.loops)
  }

  predicate Fresh(v: Wave) {
    v.packed && v.cuePoint == NO_CUE && !v.hasRelease && v.midiNote == 0 && v.pitch == 0 && v.loops == []
  }

  // Where the chunks of a stored wave are.
  lemma ChunkPlaces(b: seq<byte>, w: Wave)
    requires Divisor(w) > 0 && At(b, 12, Chunks(w))
    ensures At(b, 12, Chunk(FMT, FormatBytes(w))) && At(b, 36, CueChunk(w))
            && At(b, 36 + |CueChunk(w)|, SamplerChunk(w))
    ensures At(b, 36 + |CueChunk(w)| + |SamplerChunk(w)|, DATA + LE(DataLength(w), 4))
    ensures |Chunks(w)| == 24 + |CueChunk(w)| + |SamplerChunk(w)| + 8
  {
    hide LE, Divisor, FormatBytes, CueChunk, SamplerChunk, DataLength, At;
    var last := DATA + LE(DataLength(w), 4);
    AtSplit(b, 12, Chunk(FMT, FormatBytes(w)), CueChunk(w) + (SamplerChunk(w) + last));
    AtSplit(b, 36, CueChunk(w), SamplerChunk(w) + last);
    AtSplit(b, 36 + |CueChunk(w)|, SamplerChunk(w), last);
  }

  // The walk over the format and the cue chunk.
  lemma CueWalked(b: seq<byte>, v: Wave, w: Wave)
    requires Storable(w) && Fresh(v) && At(b, 12, Chunk(FMT, FormatBytes(w))) && At(b, 36, CueChunk(w))
             && 36 + |CueChunk(w)| <= |b|
    ensures var next := v.(channels := w.channels, sampleRate := w.sampleRate, bytesPerSample := w.bytesPerSample,
                           hasRelease := w.cuePoint != NO_CUE, cuePoint := w.cuePoint);
            Walk(b, 12, |b|, v, false) == Walk(b, 36 + |CueChunk(w)|, |b|, next, true)
  {
    hide At, LE, Divisor, Length, Chunks, Chunk, FormatBytes, CueBytes, SamplerBytes, Walk, DataLength, WithFormat,
      WithCue, WithSampler;
    FormatRead(v, w);
    var v1 := v.(channels := w.channels, sampleRate := w.sampleRate, bytesPerSample := w.bytesPerSample);
    WalkChunk(b, 12, |b|, v, false, FMT, FormatBytes(w), v1);
    if w.cuePoint != NO_CUE {
      CueRead(v1, w.cuePoint);
      CueLength(w);
      WalkChunk(b, 36, |b|, v1, true, CUE, CueBytes(w.cuePoint), v1.(hasRelease := true, cuePoint := w.cuePoint));
    }
  }

  lemma CueLength(w: Wave)
    ensures |CueChunk(w)| == if w.cuePoint != NO_CUE then 36 else 0
  {
    hide LE;
  }

  lemma ChunksWalked(b: seq<byte>, v: Wave, w: Wave)
    requires Storable(w) && Fresh(v) && At(b, 12, Chunks(w)) && 12 + |Chunks(w)| == |b|
    ensures Walk(b, 12, |b|, v, false) == Ok(Walked(v, w))
  {
    hide At, LE, Divisor, Length, Chunks, CueChunk, SamplerChunk, Walk, DataLength;
    ChunkPlaces(b, w);
    CueWalked(b, v, w);
    var next := v.(channels := w.channels, sampleRate := w.sampleRate, bytesPerSample := w.bytesPerSample,
                   hasRelease := w.cuePoint != NO_CUE, cuePoint := w.cuePoint);
    SamplerWalked(b, 36 + |CueChunk(w)|, next, w);
  }

  lemma SamplerWalked(b: seq<byte>, pos: nat, v: Wave, w: Wave)
    requires Storable(w) && v.packed && v.midiNote == 0 && v.pitch == 0 && v.loops == []
    requires At(b, pos, SamplerChunk(w)) && At(b, pos + |SamplerChunk(w)|, DATA + LE(DataLength(w), 4))
    requires pos + |SamplerChunk(w)| + 8 == |b|
    ensures Walk(b, pos, |b|, v, true) == Ok(v.(midiNote := w.midiNote, pitch := w.pitch, loops := w.loops))
  {
    hide LE, SamplerBytes, Walk, DataLength, WithSampler, FormatBytes, CueBytes;
    var v3 := v.(midiNote := w.midiNote, pitch := w.pitch, loops := w.loops);
    if w.midiNote != 0 || w.pitch != 0 || w.loops != [] {
      assert |SamplerChunk(w)| == 44 + 24 * |w.loops|;
      SamplerRead(v, w);
      WalkChunk(b, pos, |b|, v, true, SMPL, SamplerBytes(w), v3);
    }
    WalkData(b, pos + |SamplerChunk(w)|, DataLength(w), v3);
  }

  // ---------- the round trip ----------

  // A stored wave as it is after it has been opened again.
  function Reopened(w: Wave, value: seq<byte> -> int): Wave
    requires Divisor(w) > 0
  {
    w.(packed := true, samples := Values(Ints(w, value)),
       hasRelease := w.cuePoint != NO_CUE, loops := Filtered(w.loops, Length(w)))
  }

  lemma IntsLength(w: Wave, value: seq<byte> -> int)
    requires Storable(w)
    ensures |Ints(w, value)| == Length(w) * w.channels
    ensures Divisor(w.(samples := Values(Ints(w, value)))) > 0
            && Length(w.(samples := Values(Ints(w, value)))) == Length(w)
  {
    hide RawInts, Chunks;
    Remainder(Length(w) * w.channels, Length(w), w.channels, 0);
    if w.samples.Values? {
      Quotient(|w.samples.ints|, w.channels);
    }
  }

  lemma Quotient(n: nat, c: nat)
    requires c > 0
    ensures n / c * c <= n
  {
  }

  lemma HeaderFields(w: Wave)
    requires Storable(w)
    ensures var b := Header(w);
            && |b| == 12 + |Chunks(w)| && b[..4] == RIFF && b[8..12] == WAVE && At(b, 12, Chunks(w))
            && Field(b, 4, 4) == 4 + |Chunks(w)| + DataLength(w)
  {
    hide LE, FromLE, Chunks, DataLength;
    Ranges();
    var b := Header(w);
    FieldOf(b, RIFF, 4 + |Chunks(w)| + DataLength(w), 4, WAVE + Chunks(w));
  }

  // Opening a stored wave gives its metadata and samples back, but the release mark follows
  // the cue point and the loops are filtered.
  lemma SavedThenOpened(w: Wave, value: seq<byte> -> int)
    requires Storable(w)
    ensures Saved(w, value).Ok? && Opened(Saved(w, value).value) == Ok(Reopened(w, value))
  {
    hide Header, Chunks, Walk, Ints, Filtered, Field;
    var b := Header(w);
    HeaderFields(w);
    IntsLength(w, value);
    SameProduct(w.channels, Length(w), w.bytesPerSample);
    var v := Empty().(packed := true, samples := Values(Ints(w, value)));
    ChunksWalked(b, v, w);
    assert Length(Walked(v, w)) == Length(w);
    assert Length(w) * w.channels > 0 by { Positive(Length(w), w.channels); }
  }

  lemma Positive(a: nat, b: nat)
    requires a > 0 && b > 0
    ensures a * b > 0
  {
  }

  lemma SameProduct(channels: nat, length: nat, width: nat)
    ensures channels * length * width == length * width * channels
  {
  }

  predicate AllValid(loops: seq<Loop>, length: nat) {
    forall k :: 0 <= k < |loops| ==> ValidLoop(loops[k], length)
  }

  // The filter changes nothing if and only if there is nothing to remove.
  lemma {:induction false} FilterKeeps(loops: seq<Loop>, length: nat)
    ensures |Filtered(loops, length)| <= |loops|
    ensures Filtered(loops, length) == loops <==> AllValid(loops, length)
  {
    if loops != [] {
      if ValidLoop(loops[0], length) {
        FilterKeeps(loops[1..], length);
        assert loops == [loops[0]] + loops[1..];
        assert AllValid(loops, length) ==> AllValid(loops[1..], length);
        if AllValid(loops[1..], length) {
          forall k | 0 <= k < |loops| ensures ValidLoop(loops[k], length) {
            if k > 0 { assert loops[1..][k - 1] == loops[k]; }
          }
        }
        assert Filtered(loops, length)[1..] == Filtered(loops[1..], length);
      } else if |loops| > 1 {
        FilterKeeps(loops[2..], length);
      }
    }
  }

  // No two invalid loops follow each other.
  predicate NoPair(loops: seq<Loop>, length: nat) {
    forall k :: 0 <= k < |loops| - 1 ==> ValidLoop(loops[k], length) || ValidLoop(loops[k + 1], length)
  }

  lemma FirstPair(loops: seq<Loop>, length: nat)
    requires |loops| > 1
    ensures NoPair(loops, length) <==>
              (ValidLoop(loops[0], length) || ValidLoop(loops[1], length)) && NoPair(loops[1..], length)
  {
    hide ValidLoop;
    var rest := loops[1..];
    assert forall k :: 0 <= k < |rest| ==> rest[k] == loops[k + 1];
    if NoPair(loops, length) {
      forall k | 0 <= k < |rest| - 1 ensures ValidLoop(rest[k], length) || ValidLoop(rest[k + 1], length) {
        assert ValidLoop(loops[k + 1], length) || ValidLoop(loops[k + 1 + 1], length);
      }
    }
    if (ValidLoop(loops[0], length) || ValidLoop(loops[1], length)) && NoPair(rest, length) {
      forall k | 0 <= k < |loops| - 1 ensures ValidLoop(loops[k], length) || ValidLoop(loops[k + 1], length) {
        if k > 0 {
          assert ValidLoop(rest[k - 1], length) || ValidLoop(rest[k - 1 + 1], length);
        }
      }
    }
  }

  // The filter leaves an invalid loop if and only if two follow each other.
  lemma {:induction false} FilterLeaves(loops: seq<Loop>, length: nat)
    ensures AllValid(Filtered(loops, length), length) <==> NoPair(loops, length)
  {
    hide ValidLoop;
    if |loops| > 1 {
      FirstPair(loops, length);
      if ValidLoop(loops[0], length) {
        FilterLeaves(loops[1..], length);
        Prepended(loops[0], Filtered(loops[1..], length), length);
      } else {
        FilterLeaves(loops[2..], length);
        Prepended(loops[1], Filtered(loops[2..], length), length);
        assert loops[1..][1..] == loops[2..];
        if |loops| > 2 {
          FirstPair(loops[1..], length);
        }
      }
    }
  }

  lemma Prepended(l: Loop, f: seq<Loop>, length: nat)
    ensures AllValid([l] + f, length) <==> ValidLoop(l, length) && AllValid(f, length)
  {
    var all := [l] + f;
    assert all[0] == l && forall k :: 0 <= k < |f| ==> f[k] == all[k + 1];
    if ValidLoop(l, length) && AllValid(f, length) {
      forall k | 0 <= k < |all| ensures ValidLoop(all[k], length) {
        if k > 0 { assert all[k] == f[k - 1]; }
      }
    }
  }

  // The loops and the release mark survive if and only if all loops are valid and there is a
  // release mark exactly when there is a cue point.
  lemma MetadataKept(w: Wave, value: seq<byte> -> int)
    requires Storable(w)
    ensures Saved(w, value).Ok?
    ensures Opened(Saved(w, value).value) == Ok(w.(packed := true, samples := Values(Ints(w, value))))
       <==> AllValid(w.loops, Length(w)) && (w.hasRelease <==> w.cuePoint != NO_CUE)
  {
    hide Saved, Opened, Ints, Length, AllValid, Chunks, DataLength;
    SavedThenOpened(w, value);
    FilterKeeps(w.loops, Length(w));
  }
}
