// The class that reads and stores waves, proved against the functions of module Wave.
module WaveFile {
  import opened Bytes
  import opened Options
  import opened Wave

  lemma Associative(a: seq<byte>, b: seq<byte>, c: seq<byte>, d: seq<byte>)
    ensures a + b + c + d == a + (b + (c + d))
  {
  }

  lemma SameLength(w: Wave, loops: seq<Loop>)
    ensures Divisor(w.(loops := loops)) == Divisor(w)
    ensures Divisor(w) > 0 ==> Length(w.(loops := loops)) == Length(w)
  {
  }

  // What the loop over the loops leaves when it goes on at `i`.
  ghost function FilteredFrom(loops: seq<Loop>, i: nat, length: nat): seq<Loop> {
    if i <= |loops| then loops[..i] + Filtered(loops[i..], length) else loops
  }

  ghost predicate AsksFrom(loops: seq<Loop>, i: nat) {
    i < |loops| && AsksLength(loops[i..])
  }

  lemma FilterStarts(loops: seq<Loop>, length: nat)
    ensures FilteredFrom(loops, 0, length) == Filtered(loops, length) && (AsksFrom(loops, 0) <==> AsksLength(loops))
  {
    assert loops[0..] == loops;
  }

  lemma FilterEnds(loops: seq<Loop>, i: nat, length: nat)
    requires i >= |loops|
    ensures FilteredFrom(loops, i, length) == loops && !AsksFrom(loops, i)
  {
  }

  lemma FilterUnfolds(loops: seq<Loop>, length: nat)
    requires loops != []
    ensures Filtered(loops, length) ==
            if ValidLoop(loops[0], length) then [loops[0]] + Filtered(loops[1..], length)
            else if |loops| == 1 then [] else [loops[1]] + Filtered(loops[2..], length)
    ensures AsksLength(loops) <==> loops[0].start < loops[0].end || (|loops| > 1 && AsksLength(loops[2..]))
    ensures Filtered([], length) == [] && !AsksLength([])
  {
    hide ValidLoop;
  }

  lemma OneKept(before: seq<Loop>, l: Loop, rest: seq<Loop>)
    ensures before + ([l] + rest) == (before + [l]) + rest
  {
  }

  lemma KeptStep(loops: seq<Loop>, i: nat, length: nat)
    requires i < |loops| && ValidLoop(loops[i], length)
    ensures FilteredFrom(loops, i + 1, length) == FilteredFrom(loops, i, length)
  {
    hide ValidLoop, Filtered;
    assert loops[i..][0] == loops[i] && loops[i..][1..] == loops[i + 1..];
    FilterUnfolds(loops[i..], length);
    assert loops[..i + 1] == loops[..i] + [loops[i]];
    OneKept(loops[..i], loops[i], Filtered(loops[i + 1..], length));
  }

  lemma ErasedStep(loops: seq<Loop>, i: nat, length: nat)
    requires i < |loops| && !ValidLoop(loops[i], length)
    ensures var erased := loops[..i] + loops[i + 1..];
            && FilteredFrom(erased, i + 1, length) == FilteredFrom(loops, i, length)
            && (loops[i].start >= loops[i].end ==> (AsksFrom(erased, i + 1) <==> AsksFrom(loops, i)))
  {
    hide ValidLoop, Filtered, AsksLength;
    var rest := loops[i..];
    var erased := loops[..i] + loops[i + 1..];
    assert rest[0] == loops[i];
    FilterUnfolds(rest, length);
    if i + 1 < |loops| {
      assert rest[1] == loops[i + 1] && rest[2..] == loops[i + 2..];
      assert erased[..i + 1] == loops[..i] + [loops[i + 1]] && erased[i + 1..] == loops[i + 2..];
      OneKept(loops[..i], loops[i + 1], Filtered(loops[i + 2..], length));
      FilterUnfolds([loops[i]], length);
    } else {
      assert erased == loops[..i] && loops[..i] + [] == loops[..i];
    }
  }

  lemma FilterStep(loops: seq<Loop>, i: nat, length: nat)
    requires i < |loops|
    ensures loops[i].start < loops[i].end ==> AsksFrom(loops, i)
    ensures var erased := loops[..i] + loops[i + 1..];
            if ValidLoop(loops[i], length) then FilteredFrom(loops, i + 1, length) == FilteredFrom(loops, i, length)
            else
              && FilteredFrom(erased, i + 1, length) == FilteredFrom(loops, i, length)
              && (loops[i].start >= loops[i].end ==> (AsksFrom(erased, i + 1) <==> AsksFrom(loops, i)))
  {
    hide FilteredFrom, ValidLoop, Filtered, AsksLength;
    assert loops[i..][0] == loops[i];
    FilterUnfolds(loops[i..], length);
    if ValidLoop(loops[i], length) {
      KeptStep(loops, i, length);
    } else {
      ErasedStep(loops, i, length);
    }
  }

  class GOWave {
    var sampleData: Samples
    var bytesPerSample: nat
    var sampleRate: nat
    var cuePoint: nat
    var channels: nat
    var midiNote: nat
    var pitchFract: nat
    var isPacked: bool
    var hasRelease: bool
    var loops: seq<Loop>

    function State(): Wave
      reads this
    {
      Wave(channels, bytesPerSample, sampleRate, cuePoint, hasRelease, midiNote, pitchFract, isPacked, loops,
        sampleData)
    }

    method Close()
      modifies this
      ensures State() == Empty()
    {
      sampleData := Raw([]);
      channels, bytesPerSample, sampleRate, midiNote, pitchFract := 0, 0, 0, 0, 0;
      cuePoint := NO_CUE;
      hasRelease, isPacked := false, false;
      loops := [];
    }

    // The state after a chunk has been loaded, or the error.
    ghost predicate Loaded(r: Result<Wave>, error: Option<Error>)
      reads this
    {
      match r
      case Ok(w) => error == None && State() == w
      case Err(e) => error == Some(e)
    }

    method LoadFormatChunk(b: seq<byte>) returns (error: Option<Error>)
      modifies this
      ensures Loaded(WithFormat(old(State()), b), error)
    {
      if |b| < 16 {
        return Some(BadFormat);
      }
      var formatCode := Field(b, 0, 2);
      if formatCode != 1 && formatCode != 3 {
        return Some(BadFormat);
      }
      channels := Field(b, 2, 2);
      sampleRate := Field(b, 4, 4);
      var bitsPerSample := Field(b, 14, 2);
      if bitsPerSample % 8 != 0 {
        return Some(BadFormat);
      }
      bytesPerSample := bitsPerSample / 8;
      if formatCode == 3 && bytesPerSample != 4 {
        return Some(BadFormat);
      } else if formatCode == 1 && bytesPerSample > 3 {
        return Some(BadFormat);
      }
      return None;
    }

    method LoadCueChunk(b: seq<byte>) returns (error: Option<Error>)
      modifies this
      ensures Loaded(WithCue(old(State()), b), error)
    {
      if |b| < 4 {
        return Some(BadCue);
      }
      var points := Field(b, 0, 4);
      if |b| < 4 + 24 * points {
        return Some(BadCue);
      }
      hasRelease := points > 0;
      if hasRelease {
        cuePoint := 0;
      }
      for k := 0 to points
        invariant State() == old(State()).(hasRelease := points > 0, cuePoint := if points > 0 then LastCue(b, k)
                  else old(cuePoint))
      {
        var position := Field(b, 4 + 24 * k + 20, 4);
        if position > cuePoint {
          cuePoint := position;
        }
      }
      return None;
    }

    method LoadSamplerChunk(b: seq<byte>) returns (error: Option<Error>)
      modifies this
      ensures Loaded(WithSampler(old(State()), b), error)
    {
      if |b| < 36 {
        return Some(BadSampler);
      }
      var count := Field(b, 28, 4);
      if |b| < 36 + 24 * count {
        return Some(BadSampler);
      }
      loops := [];
      for k := 0 to count
        invariant State() == old(State()).(loops := LoopsIn(b, k))
      {
        var pos := 36 + 24 * k;
        loops := loops + [Loop(Field(b, pos + 8, 4), Field(b, pos + 12, 4))];
      }
      midiNote := Field(b, 12, 4);
      pitchFract := Field(b, 16, 4);
      return None;
    }

    // The body of the loop over the chunks, without the move to the next one.
    method LoadChunk(b: seq<byte>, pos: nat, length: nat, id: seq<byte>, size: nat, hasFormat: bool)
        returns (error: Option<Error>)
      requires length <= |b|
      modifies this
      ensures Loaded(WithChunk(b, pos, length, id, size, old(State()), hasFormat), error)
    {
      hide WithFormat, WithCue, WithSampler;
      error := None;
      if id == DATA {
        if !hasFormat {
          return Some(DataBeforeFormat);
        }
        if !isPacked {
          if pos + size > length {
            return Some(Malformed);
          }
          sampleData := Raw(b[pos..pos + size]);
        }
      } else if id == FMT {
        if pos + size > length {
          return Some(Malformed);
        }
        error := LoadFormatChunk(b[pos..pos + size]);
      } else if id == CUE {
        if pos + size > length {
          return Some(Malformed);
        }
        error := LoadCueChunk(b[pos..pos + size]);
      } else if id == SMPL {
        if pos + size > length {
          return Some(Malformed);
        }
        error := LoadSamplerChunk(b[pos..pos + size]);
      }
    }

    method Open(content: Content) returns (error: Option<Error>)
      modifies this
      ensures match Opened(content)
              case Ok(w) => error == None && State() == w
              case Err(e) => error == Some(e) && (e != DivisionByZero ==> State() == Empty())
    {
      hide OpenedBytes;
      Close();
      match content {
        case File(bytes) =>
          error := OpenBytes(bytes, 0);
        case WavPack(box) =>
          sampleData := Values(box.ints);
          isPacked := true;
          error := OpenBytes(box.wrapper, box.channels * box.count * box.bytesPerSample);
      }
      if error != None && error != Some(DivisionByZero) {
        Close();
      }
    }

    // `dataLength` is what a packed file leaves out of the wrapper.
    method OpenBytes(b: seq<byte>, dataLength: nat) returns (error: Option<Error>)
      requires !isPacked ==> dataLength == 0
      modifies this
      ensures Loaded(OpenedBytes(b, old(State()), dataLength), error)
    {
      hide Walk, Cleaned;
      if |b| < 12 {
        return Some(NotRiff);
      }
      var riffChunkSize := Field(b, 4, 4);
      if b[..4] != RIFF {
        return Some(NotRiff);
      }
      if b[8..12] != WAVE {
        return Some(NotWave);
      }
      if isPacked {
        if riffChunkSize < dataLength {
          return Some(Inconsistent);
        }
        riffChunkSize := riffChunkSize - dataLength;
      }
      var length := |b|;
      if length > riffChunkSize + 8 {
        length := riffChunkSize + 8;
      }
      error := WalkChunks(b, length);
      if error != None {
        return;
      }
      if sampleData == Raw([]) || sampleData == Values([]) {
        return Some(NoSamples);
      }
      error := FilterLoops();
    }

    method WalkChunks(b: seq<byte>, length: nat) returns (error: Option<Error>)
      requires length <= |b|
      modifies this
      ensures Loaded(Walk(b, 12, length, old(State()), false), error)
    {
      hide WithChunk, Field;
      var hasFormat := false;
      var offset := 12;
      while offset + 8 <= length
        // the source asserts that chunks are aligned
        invariant offset + 8 <= length ==> offset % 2 == 0
        invariant Walk(b, 12, length, old(State()), false) == Walk(b, offset, length, State(), hasFormat)
        decreases length - offset
      {
        assert offset % 2 == 0;
        var id := b[offset..offset + 4];
        var size := Field(b, offset + 4, 4);
        offset := offset + 8;
        var elsewhere := id == DATA && isPacked;
        error := LoadChunk(b, offset, length, id, size, hasFormat);
        if error != None {
          return;
        }
        if elsewhere {
          size := 0;
        }
        if id == FMT {
          hasFormat := true;
        }
        offset := offset + size;
        if offset < length {
          offset := offset + size % 2;
        }
      }
      if offset != length {
        return Some(NotAtEnd);
      }
      return None;
    }

    // Removes invalid loops; the index moves on after a loop has been erased.
    method FilterLoops() returns (error: Option<Error>)
      modifies this`loops
      ensures Loaded(Cleaned(old(State())), error)
    {
      hide Length, Divisor, Filtered, AsksLength, FilteredFrom, AsksFrom;
      var i := 0;
      ghost var w := State();
      ghost var length := if Divisor(w) > 0 then Length(w) else 0;
      FilterStarts(loops, length);
      while i < |loops|
        invariant i <= |loops| + 1
        invariant FilteredFrom(loops, i, length) == Filtered(w.loops, length)
        invariant Divisor(w) == 0 ==> (AsksFrom(loops, i) <==> AsksLength(w.loops))
        decreases |loops| - i
      {
        SameLength(w, loops);
        FilterStep(loops, i, length);
        if loops[i].start < loops[i].end && Divisor(State()) == 0 {
          return Some(DivisionByZero);
        }
        if !(loops[i].start < loops[i].end && loops[i].start < Length(State()) && loops[i].end < Length(State()))
          || loops[i].end == 0 {
          loops := loops[..i] + loops[i + 1..];
        }
        i := i + 1;
      }
      FilterEnds(loops, i, length);
      return None;
    }

    method Save(value: seq<byte> -> int) returns (content: Result<Content>)
      ensures content == Saved(State(), value)
    {
      hide Ints, Length, Chunks, LE;
      if Divisor(State()) == 0 {
        return Err(DivisionByZero);
      }
      var header: seq<byte> := LE(0, 4) + LE(0, 4);
      header := header + WAVE;
      var chunks := GetChunks();
      header := header + chunks;
      var dataLength := Length(State()) * bytesPerSample * channels;
      header := RIFF + LE(|header| - 8 + dataLength, 4) + header[8..];
      assert header == Header(State());
      var data := GetInts(value);
      content := Ok(WavPack(Box(header, data, channels, bytesPerSample, Length(State()))));
    }

    method GetChunks() returns (header: seq<byte>)
      requires Divisor(State()) > 0
      ensures header == Chunks(State())
    {
      hide FormatBytes, CueBytes, SamplerBytes, LE, DataLength;
      var format := GetFormatBytes();
      header := (FMT + LE(|format|, 4)) + format;
      var cue: seq<byte> := [];
      if cuePoint != NO_CUE {
        cue := (CUE + LE(28, 4)) + CueBytes(cuePoint);
        header := header + cue;
      }
      assert cue == CueChunk(State()) && header == Chunk(FMT, FormatBytes(State())) + cue;
      var sampler: seq<byte> := [];
      if midiNote != 0 || pitchFract != 0 || |loops| > 0 {
        var body := GetSamplerBytes();
        sampler := (SMPL + LE(|body|, 4)) + body;
        header := header + sampler;
      }
      assert sampler == SamplerChunk(State()) && header == Chunk(FMT, FormatBytes(State())) + cue + sampler;
      header := header + (DATA + LE(GetDataLength(), 4));
      Associative(Chunk(FMT, FormatBytes(State())), cue, sampler, DATA + LE(DataLength(State()), 4));
    }

    function GetDataLength(): (n: nat)
      requires Divisor(State()) > 0
      reads this
      ensures n == DataLength(State())
    {
      Length(State()) * bytesPerSample * channels
    }

    method GetFormatBytes() returns (b: seq<byte>)
      ensures b == FormatBytes(State())
    {
      hide LE;
      b := LE(if bytesPerSample == 4 then 3 else 1, 2);
      b := b + LE(channels, 2) + LE(sampleRate, 4);
      b := b + LE(sampleRate * channels * bytesPerSample, 4);
      b := b + LE(channels * bytesPerSample, 2);
      b := b + LE(bytesPerSample * 8, 2);
    }

    method GetSamplerBytes() returns (b: seq<byte>)
      ensures b == SamplerBytes(State())
    {
      hide LE, LoopBytes, Period;
      var loopBytes: seq<byte> := [];
      for i := 0 to |loops|
        invariant loopBytes == LoopsBytes(loops[..i])
      {
        assert loops[..i + 1][..i] == loops[..i];
        loopBytes := loopBytes + LoopBytes(i, loops[i]);
      }
      assert loops[..|loops|] == loops;
      b := LE(0, 4) + LE(0, 4) + LE(Period(sampleRate), 4);
      b := b + LE(midiNote, 4) + LE(pitchFract, 4) + LE(0, 4) + LE(0, 4);
      b := b + LE(|loops|, 4) + LE(0, 4);
      b := b + loopBytes;
    }

    method GetInts(value: seq<byte> -> int) returns (data: seq<int>)
      requires Divisor(State()) > 0
      ensures data == Ints(State(), value)
    {
      hide Length, Divisor;
      var n := Length(State()) * channels;
      match sampleData {
        case Values(ints) =>
          data := if n <= |ints| then ints[..n] else ints;
        case Raw(bytes) =>
          var input := bytes;
          data := [];
          for i := 0 to n
            invariant data + RawInts(input, bytesPerSample, n - i, value) == RawInts(bytes, bytesPerSample, n, value)
            invariant |data| == i
          {
            if |input| < bytesPerSample {
              data := data + seq(n - i, _ => 0);
              return;
            }
            data := data + [value(input[..bytesPerSample])];
            input := input[bytesPerSample..];
          }
      }
    }
  }
}
