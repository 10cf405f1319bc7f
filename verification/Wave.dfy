// Wave files: the walk over the chunks of a file, and what is written when a wave is stored
// as a WavPack file.  WavPack is a box that keeps the wrapper and the samples.
module Wave {
  import opened Bytes

  datatype Error =
    | NotRiff | NotWave | Inconsistent | Malformed | DataBeforeFormat
    | BadFormat | BadCue | BadSampler | NotAtEnd | NoSamples
    // not reported: the program ends
    | DivisionByZero

  datatype Result<+T> = Ok(value: T) | Err(error: Error)

  datatype Loop = Loop(start: nat, end: nat)

  datatype Samples = Raw(bytes: seq<byte>) | Values(ints: seq<int>)

  // `pitch` is the pitch fraction as stored in a file.
  datatype Wave = Wave(
    channels: nat, bytesPerSample: nat, sampleRate: nat, cuePoint: nat, hasRelease: bool,
    midiNote: nat, pitch: nat, packed: bool, loops: seq<Loop>, samples: Samples)

  // What WavPack keeps of a file.
  datatype Box = Box(wrapper: seq<byte>, ints: seq<int>, channels: nat, bytesPerSample: nat, count: nat)

  datatype Content = File(bytes: seq<byte>) | WavPack(box: Box)

  const NO_CUE: nat := 0xFFFF_FFFF
  const RIFF: seq<byte> := [0x52, 0x49, 0x46, 0x46]
  const WAVE: seq<byte> := [0x57, 0x41, 0x56, 0x45]
  const DATA: seq<byte> := [0x64, 0x61, 0x74, 0x61]
  const FMT: seq<byte> := [0x66, 0x6D, 0x74, 0x20]
  const CUE: seq<byte> := [0x63, 0x75, 0x65, 0x20]
  const SMPL: seq<byte> := [0x73, 0x6D, 0x70, 0x6C]

  function Empty(): Wave {
    Wave(0, 0, 0, NO_CUE, false, 0, 0, false, [], Raw([]))
  }

  // What the size of the samples is divided by.  The format chunk may say 0.
  function Divisor(w: Wave): nat {
    match w.samples
    case Values(_) => w.channels
    case Raw(_) => w.bytesPerSample * w.channels
  }

  // The number of sample frames.
  function Length(w: Wave): nat
    requires Divisor(w) > 0
  {
    match w.samples
    case Values(ints) => |ints| / w.channels
    case Raw(bytes) => |bytes| / (w.bytesPerSample * w.channels)
  }

  // ---------- reading ----------

  function Field(b: seq<byte>, pos: nat, width: nat): nat
    requires pos + width <= |b|
  {
    FromLE(b[pos..pos + width])
  }

  function WithFormat(w: Wave, b: seq<byte>): Result<Wave> {
    if |b| < 16 then Err(BadFormat)
    else
      var code := Field(b, 0, 2);
      var bits := Field(b, 14, 2);
      if code != 1 && code != 3 then Err(BadFormat)
      else if bits % 8 != 0 then Err(BadFormat)
      else if code == 3 && bits / 8 != 4 then Err(BadFormat)
      else if code == 1 && bits / 8 > 3 then Err(BadFormat)
      else Ok(w.(channels := Field(b, 2, 2), sampleRate := Field(b, 4, 4), bytesPerSample := bits / 8))
  }

  // The latest of the first `n` cue points.
  function LastCue(b: seq<byte>, n: nat): nat
    requires 4 + 24 * n <= |b|
  {
    if n == 0 then 0
    else
      var before := LastCue(b, n - 1);
      var position := Field(b, 4 + 24 * (n - 1) + 20, 4);
      if position > before then position else before
  }

  function WithCue(w: Wave, b: seq<byte>): Result<Wave> {
    if |b| < 4 then Err(BadCue)
    else
      var n := Field(b, 0, 4);
      if |b| < 4 + 24 * n then Err(BadCue)
      else Ok(w.(hasRelease := n > 0, cuePoint := if n > 0 then LastCue(b, n) else w.cuePoint))
  }

  function LoopsIn(b: seq<byte>, n: nat): (loops: seq<Loop>)
    requires 36 + 24 * n <= |b|
    ensures |loops| == n
  {
    if n == 0 then []
    else
      var pos := 36 + 24 * (n - 1);
      LoopsIn(b, n - 1) + [Loop(Field(b, pos + 8, 4), Field(b, pos + 12, 4))]
  }

  function WithSampler(w: Wave, b: seq<byte>): Result<Wave> {
    if |b| < 36 then Err(BadSampler)
    else
      var n := Field(b, 28, 4);
      if |b| < 36 + 24 * n then Err(BadSampler)
      else Ok(w.(loops := LoopsIn(b, n), midiNote := Field(b, 12, 4), pitch := Field(b, 16, 4)))
  }

  // One chunk, whose body starts at `pos`.
  function WithChunk(b: seq<byte>, pos: nat, length: nat, id: seq<byte>, size: nat, w: Wave,
      hasFormat: bool): Result<Wave>
    requires length <= |b|
  {
    if id == DATA then
      if !hasFormat then Err(DataBeforeFormat)
      else if w.packed then Ok(w)
      else if pos + size > length then Err(Malformed)
      else Ok(w.(samples := Raw(b[pos..pos + size])))
    else if id == FMT then
      if pos + size > length then Err(Malformed) else WithFormat(w, b[pos..pos + size])
    else if id == CUE then
      if pos + size > length then Err(Malformed) else WithCue(w, b[pos..pos + size])
    else if id == SMPL then
      if pos + size > length then Err(Malformed) else WithSampler(w, b[pos..pos + size])
    else Ok(w)
  }

  // Where the next chunk starts: aligned, unless the file ends before.
  function Following(pos: nat, size: nat, length: nat): (next: nat)
    ensures next >= pos
  {
    if pos + size < length then pos + size + size % 2 else pos + size
  }

  function Walk(b: seq<byte>, offset: nat, length: nat, w: Wave, hasFormat: bool): Result<Wave>
    requires length <= |b|
    decreases length - offset
  {
    if offset + 8 > length then
      if offset != length then Err(NotAtEnd) else Ok(w)
    else
      var id := b[offset..offset + 4];
      var size := Field(b, offset + 4, 4);
      var step := WithChunk(b, offset + 8, length, id, size, w, hasFormat);
      if step.Err? then step
      else
        var skipped := if id == DATA && w.packed then 0 else size;
        Walk(b, Following(offset + 8, skipped, length), length, step.value, hasFormat || id == FMT)
  }

  predicate ValidLoop(l: Loop, length: nat) {
    l.start < l.end && l.start < length && l.end < length
  }

  // An invalid loop is removed, and then the one after it is not looked at.
  function Filtered(loops: seq<Loop>, length: nat): seq<Loop> {
    if loops == [] then []
    else if ValidLoop(loops[0], length) then [loops[0]] + Filtered(loops[1..], length)
    else if |loops| == 1 then []
    else [loops[1]] + Filtered(loops[2..], length)
  }

  // The length is asked for when a loop is looked at that starts before its end; as long as
  // there is none, every other loop is removed.
  predicate AsksLength(loops: seq<Loop>) {
    loops != [] && (loops[0].start < loops[0].end || (|loops| > 1 && AsksLength(loops[2..])))
  }

  // The wave with its loops filtered.
  function Cleaned(w: Wave): Result<Wave> {
    if Divisor(w) > 0 then Ok(w.(loops := Filtered(w.loops, Length(w))))
    else if AsksLength(w.loops) then Err(DivisionByZero)
    else Ok(w.(loops := Filtered(w.loops, 0)))
  }

  lemma {:induction false} AsksExactly(loops: seq<Loop>)
    ensures AsksLength(loops) <==> exists k :: 0 <= k < |loops| && k % 2 == 0 && loops[k].start < loops[k].end
  {
    if |loops| > 1 {
      AsksExactly(loops[2..]);
      forall k | 2 <= k < |loops| ensures loops[2..][k - 2] == loops[k] {
      }
      if k :| 0 <= k < |loops[2..]| && k % 2 == 0 && loops[2..][k].start < loops[2..][k].end {
        assert loops[k + 2].start < loops[k + 2].end;
      }
    }
  }

  // Filtering the loops ends the program exactly if the number of channels (or the width of a
  // sample that is not packed) is 0 and a loop at an even place starts before its end.
  lemma FilterFaults(w: Wave)
    ensures Cleaned(w) == Err(DivisionByZero) <==>
              && (w.channels == 0 || (w.samples.Raw? && w.bytesPerSample == 0))
              && exists k :: 0 <= k < |w.loops| && k % 2 == 0 && w.loops[k].start < w.loops[k].end
  {
    hide AsksLength, Filtered;
    AsksExactly(w.loops);
    ZeroProduct(w.bytesPerSample, w.channels);
  }

  lemma ZeroProduct(a: nat, b: nat)
    ensures a * b == 0 <==> a == 0 || b == 0
  {
  }

  // `dataLength` is the length of the samples that are not in `b`.
  function OpenedBytes(b: seq<byte>, w: Wave, dataLength: nat): Result<Wave> {
    if |b| < 12 || b[..4] != RIFF then Err(NotRiff)
    else if b[8..12] != WAVE then Err(NotWave)
    else
      var riff := Field(b, 4, 4);
      if riff < dataLength then Err(Inconsistent)
      else
        var length := if |b| > riff - dataLength + 8 then riff - dataLength + 8 else |b|;
        var r := Walk(b, 12, length, w, false);
        if r.Err? then r
        else if r.value.samples == Raw([]) || r.value.samples == Values([]) then Err(NoSamples)
        else Cleaned(r.value)
  }

  function Opened(c: Content): Result<Wave> {
    match c
    case File(bytes) => OpenedBytes(bytes, Empty(), 0)
    case WavPack(box) =>
      OpenedBytes(box.wrapper, Empty().(packed := true, samples := Values(box.ints)),
        box.channels * box.count * box.bytesPerSample)
  }

  // ---------- writing ----------

  function Chunk(id: seq<byte>, body: seq<byte>): seq<byte> {
    id + LE(|body|, 4) + body
  }

  function FormatBytes(w: Wave): (b: seq<byte>)
    ensures |b| == 16
  {
    LE(if w.bytesPerSample == 4 then 3 else 1, 2) + (LE(w.channels, 2) + (LE(w.sampleRate, 4)
    + (LE(w.sampleRate * w.channels * w.bytesPerSample, 4)
      + (LE(w.channels * w.bytesPerSample, 2) + LE(w.bytesPerSample * 8, 2)))))
  }

  function CueBytes(cue: nat): (b: seq<byte>)
    ensures |b| == 28
  {
    LE(1, 4) + (LE(1, 4) + LE(0, 4) + DATA + LE(0, 4) + LE(0, 4) + LE(cue, 4))
  }

  function LoopBytes(id: nat, l: Loop): (b: seq<byte>)
    ensures |b| == 24
  {
    LE(id, 4) + LE(0, 4) + (LE(l.start, 4) + (LE(l.end, 4) + (LE(0, 4) + LE(0, 4))))
  }

  function LoopsBytes(loops: seq<Loop>): (b: seq<byte>)
    ensures |b| == 24 * |loops|
  {
    if loops == [] then []
    else LoopsBytes(loops[..|loops| - 1]) + LoopBytes(|loops| - 1, loops[|loops| - 1])
  }

  function Period(rate: nat): nat {
    if rate == 0 then 0 else 1_000_000_000 / rate
  }

  function SamplerBytes(w: Wave): (b: seq<byte>)
    ensures |b| == 36 + 24 * |w.loops|
  {
    LE(0, 4) + LE(0, 4) + LE(Period(w.sampleRate), 4) + (LE(w.midiNote, 4) + (LE(w.pitch, 4)
    + (LE(0, 4) + LE(0, 4) + (LE(|w.loops|, 4) + (LE(0, 4) + LoopsBytes(w.loops))))))
  }

  function CueChunk(w: Wave): seq<byte> {
    if w.cuePoint != NO_CUE then Chunk(CUE, CueBytes(w.cuePoint)) else []
  }

  function SamplerChunk(w: Wave): seq<byte> {
    if w.midiNote != 0 || w.pitch != 0 || w.loops != [] then Chunk(SMPL, SamplerBytes(w)) else []
  }

  function DataLength(w: Wave): nat
    requires Divisor(w) > 0
  {
    Length(w) * w.bytesPerSample * w.channels
  }

  // Everything after the header of the file.
  function Chunks(w: Wave): seq<byte>
    requires Divisor(w) > 0
  {
    Chunk(FMT, FormatBytes(w)) + (CueChunk(w) + (SamplerChunk(w) + (DATA + LE(DataLength(w), 4))))
  }

  function Header(w: Wave): seq<byte>
    requires Divisor(w) > 0
  {
    RIFF + (LE(4 + |Chunks(w)| + DataLength(w), 4) + (WAVE + Chunks(w)))
  }

  // The samples as integers; `value` decodes one sample.
  function Ints(w: Wave, value: seq<byte> -> int): (s: seq<int>)
    requires Divisor(w) > 0
  {
    match w.samples
    case Values(ints) => if Length(w) * w.channels <= |ints| then ints[..Length(w) * w.channels] else ints
    case Raw(bytes) => RawInts(bytes, w.bytesPerSample, Length(w) * w.channels, value)
  }

  function RawInts(bytes: seq<byte>, width: nat, n: nat, value: seq<byte> -> int): (s: seq<int>)
    ensures |s| == n
  {
    if n == 0 then []
    else if |bytes| < width then seq(n, _ => 0)
    else [value(bytes[..width])] + RawInts(bytes[width..], width, n - 1, value)
  }

  function Saved(w: Wave, value: seq<byte> -> int): Result<Content> {
    if Divisor(w) == 0 then Err(DivisionByZero)
    else Ok(WavPack(Box(Header(w), Ints(w, value), w.channels, w.bytesPerSample, Length(w))))
  }
}
