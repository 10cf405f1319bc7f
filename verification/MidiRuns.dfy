// Which files the reader reads to an end, and without leaving the file.
module MidiRuns {
  import opened Arithmetic
  import opened Bytes
  import opened MidiFile
  import opened MidiRecorder
  import opened Options
  import opened Orbits

  // The largest file in which no position of a message wraps round.
  const MAX_FILE: nat := WORD - 0x101

  // ---------- reading comes to an end ----------

  function NextReading(data: seq<byte>, r: Reading): Option<Reading> {
    var step := Round(data, r);
    if step.Stop? || step.Outside? then None else Some(step.next)
  }

  function Onward(data: seq<byte>): Reading -> Option<Reading> {
    r => NextReading(data, r)
  }

  ghost predicate ReadingEnds(data: seq<byte>, r: Reading) {
    exists n: nat :: !Run(data, r, n).ending.Unfinished?
  }

  ghost predicate ReadingReturns(data: seq<byte>, r: Reading) {
    exists i: nat, j: nat :: i < j && Run(data, r, i).ending.Unfinished?
      && Run(data, r, i).ending == Run(data, r, j).ending
  }

  lemma {:induction false} RunIsOrbit(data: seq<byte>, r: Reading, n: nat)
    ensures Run(data, r, n).ending.Unfinished? <==> After(Onward(data), r, n) != None
    ensures Run(data, r, n).ending.Unfinished? ==> After(Onward(data), r, n) == Some(Run(data, r, n).ending.now)
    decreases n
  {
    hide Round;
    if n > 0 && NextReading(data, r) != None {
      RunIsOrbit(data, NextReading(data, r).value, n - 1);
    }
  }

  // All positions with at most so many tracks to come.
  ghost function Readings(tracks: nat): set<Reading> {
    set p: nat, e: nat, s: nat, t: nat | p < WORD && e < WORD && s < 256 && t <= tracks :: Reading(p, e, s, t)
  }

  lemma TracksFall(data: seq<byte>, r: Reading)
    ensures NextReading(data, r) != None ==> NextReading(data, r).value.tracks <= r.tracks
  {
    hide DecodeTime, MessageStart, ReadBytes, ChunkLength, IsTrack, DataOf;
  }

  // In files of any size, also those in which positions of a message wrap round: reading goes on
  // for ever only by coming back to a state.  MidiChunks says when.
  lemma EndsUnlessReturns(data: seq<byte>, r: Reading)
    ensures ReadingEnds(data, r) <==> !ReadingReturns(data, r)
  {
    hide NextReading, Run;
    var s := Readings(r.tracks);
    forall x | x in s && Onward(data)(x) != None ensures Onward(data)(x).value in s {
      TracksFall(data, x);
    }
    EndsExactly(Onward(data), r, s);
    SameReturns(data, r);
  }

  lemma SameReturns(data: seq<byte>, r: Reading)
    ensures ReadingEnds(data, r) <==> Ends(Onward(data), r)
    ensures ReadingReturns(data, r) <==> Returns(Onward(data), r)
  {
    hide Run, After, Onward;
    forall n: nat
      ensures Run(data, r, n).ending.Unfinished? <==> After(Onward(data), r, n) != None
      ensures Run(data, r, n).ending.Unfinished? ==> After(Onward(data), r, n) == Some(Run(data, r, n).ending.now)
    {
      RunIsOrbit(data, r, n);
    }
    if ReadingReturns(data, r) {
      var i: nat, j: nat :| i < j && Run(data, r, i).ending.Unfinished?
        && Run(data, r, i).ending == Run(data, r, j).ending;
      assert After(Onward(data), r, i) == After(Onward(data), r, j);
    }
    if Returns(Onward(data), r) {
      var i: nat, j: nat :| i < j && After(Onward(data), r, i) != None
        && After(Onward(data), r, i) == After(Onward(data), r, j);
      assert Run(data, r, i).ending == Run(data, r, j).ending;
    }
  }

  // ---------- chunks that lie inside the file ----------

  // Where a chunk ends by its own account.
  function ChunkEnd(data: seq<byte>, pos: nat): nat
    requires pos + 8 <= |data|
  {
    pos + 8 + ChunkLength(data, pos)
  }

  // No chunk on the way leads back: those that are skipped end below 2^32.
  predicate Forward(data: seq<byte>, pos: nat)
    decreases |data| - pos
  {
    pos + 8 <= |data| ==> (IsTrack(data, pos) || ChunkEnd(data, pos) < WORD) && Forward(data, ChunkEnd(data, pos))
  }

  // Besides, all tracks on the way end inside the file.
  predicate Fits(data: seq<byte>, pos: nat)
    decreases |data| - pos
  {
    pos + 8 <= |data| ==>
      (if IsTrack(data, pos) then ChunkEnd(data, pos) <= |data| else ChunkEnd(data, pos) < WORD)
        && Fits(data, ChunkEnd(data, pos))
  }

  predicate GoesOn(data: seq<byte>, r: Reading) {
    if r.trackEnd == 0 then Forward(data, r.pos)
    else r.trackEnd > |data| || (r.pos <= r.trackEnd && Forward(data, r.trackEnd))
  }

  predicate StaysInside(data: seq<byte>, r: Reading) {
    if r.trackEnd == 0 then Fits(data, r.pos) else r.pos <= r.trackEnd <= |data| && Fits(data, r.trackEnd)
  }

  lemma BytesRead(data: seq<byte>, pos: word, len: nat)
    requires pos <= |data| < WORD
    ensures ReadBytes(data, pos, len) == if pos + len <= |data| then Some(data[pos..pos + len]) else None
    decreases len
  {
    if len == 0 {
      assert data[pos..pos] == [];
    } else if pos < |data| {
      BytesRead(data, pos + 1, len - 1);
      assert pos + len <= |data| ==> data[pos..pos + len] == [data[pos]] + data[pos + 1..pos + len];
    }
  }

  // A message that has been read starts after the old position and ends inside its track and
  // inside the file.
  lemma MessageAdvances(data: seq<byte>, r: Reading, time: nat, status: byte)
    requires r.pos <= |data| <= MAX_FILE && r.pos <= r.trackEnd
    ensures var step := AfterStatus(data, r, time, status);
            && !step.Skip?
            && (step.Got? ==> r.pos <= step.next.pos <= r.trackEnd == step.next.trackEnd && step.next.pos <= |data|)
            && (step.EndOfTrack? ==> step.next.pos == r.trackEnd && step.next.trackEnd == 0)
            && (r.trackEnd <= |data| ==> !step.Outside?)
  {
    hide DataOf, ReadBytes;
    var start := MessageStart(data, r.pos, r.trackEnd, status);
    if start.Start? && start.from <= |data| {
      BytesRead(data, start.from, start.len);
    }
  }

  lemma {:induction false} TimeInside(data: seq<byte>, pos: word, end: word, time: nat)
    requires end <= |data|
    ensures DecodeTime(data, pos, end, time) != None
    decreases end - pos
  {
    if pos < end && data[pos] >= 128 {
      TimeInside(data, pos + 1, end, (time * 128 + data[pos] % 128) % WORD);
    }
  }

  lemma TrackAdvances(data: seq<byte>, r: Reading)
    requires r.pos <= |data| <= MAX_FILE
    ensures var step := InTrack(data, r);
            && !step.Skip?
            && (step.Got? ==> r.pos < step.next.pos <= r.trackEnd == step.next.trackEnd && step.next.pos <= |data|)
            && (step.EndOfTrack? ==> r.pos < step.next.pos == r.trackEnd && step.next.trackEnd == 0)
            && (r.trackEnd <= |data| ==> !step.Outside?)
  {
    hide DecodeTime, AfterStatus;
    var time := DecodeTime(data, r.pos, r.trackEnd, 0);
    if r.trackEnd <= |data| {
      TimeInside(data, r.pos, r.trackEnd, 0);
    }
    if time.Some? && time.value.1 < r.trackEnd && time.value.1 < |data| {
      var s := r.(pos := time.value.1);
      MessageAdvances(data, s.(pos := s.pos + 1), time.value.0, data[s.pos]);
      MessageAdvances(data, s, time.value.0, s.lastStatus);
    }
  }

  lemma RoundGoesOn(data: seq<byte>, r: Reading)
    requires |data| <= MAX_FILE && GoesOn(data, r)
    ensures NextReading(data, r) != None ==>
            r.pos < NextReading(data, r).value.pos && GoesOn(data, NextReading(data, r).value)
  {
    hide InTrack, ChunkLength, IsTrack;
    var left := Leave(r);
    if r.pos < |data| {
      TrackAdvances(data, left);
      if left.trackEnd == 0 && StartTrack(data, left).Track? {
        TrackAdvances(data, StartTrack(data, left).next);
        ChunkLengthBounded(data, r.pos);
      }
    }
  }

  lemma ChunkLengthBounded(data: seq<byte>, pos: nat)
    requires pos + 8 <= |data|
    ensures ChunkLength(data, pos) < WORD
  {
    FromBEBounded(data[pos + 4..pos + 8]);
    Ranges();
  }

  // A skipped chunk leads on exactly if it ends below 2^32.
  lemma SkipsForward(data: seq<byte>, r: Reading)
    requires StartTrack(data, r).Other?
    ensures r.pos + 8 <= StartTrack(data, r).next.pos <==> ChunkEnd(data, r.pos) < WORD
  {
    hide ChunkLength, IsTrack;
    ChunkLengthBounded(data, r.pos);
  }

  // Reading a file without a chunk that leads back ends after at most as many rounds as there
  // are bytes left.
  lemma {:induction false} ForwardEnds(data: seq<byte>, r: Reading, n: nat)
    requires |data| <= MAX_FILE && GoesOn(data, r) && n > 0 && r.pos + n > |data|
    ensures !Run(data, r, n).ending.Unfinished?
    decreases n
  {
    hide Round, GoesOn;
    var next := NextReading(data, r);
    if next != None {
      RoundGoesOn(data, r);
      PastEnd(data, r);
      ForwardEnds(data, next.value, n - 1);
    }
  }

  lemma PastEnd(data: seq<byte>, r: Reading)
    ensures NextReading(data, r) != None ==> r.pos < |data|
  {
    hide InTrack, StartTrack;
  }

  lemma {:induction false} FitsGoesForward(data: seq<byte>, pos: nat)
    requires Fits(data, pos) && |data| <= MAX_FILE
    ensures Forward(data, pos)
    decreases |data| - pos
  {
    hide ChunkLength, IsTrack;
    if pos + 8 <= |data| {
      FitsGoesForward(data, ChunkEnd(data, pos));
    }
  }

  lemma RoundStaysInside(data: seq<byte>, r: Reading)
    requires |data| <= MAX_FILE && StaysInside(data, r)
    ensures !Round(data, r).Outside?
    ensures NextReading(data, r) != None ==> StaysInside(data, NextReading(data, r).value)
  {
    hide InTrack, ChunkLength, IsTrack;
    var left := Leave(r);
    if r.pos < |data| {
      TrackAdvances(data, left);
      if left.trackEnd == 0 && StartTrack(data, left).Track? {
        TrackAdvances(data, StartTrack(data, left).next);
      }
    }
  }

  lemma {:induction false} InsideRun(data: seq<byte>, r: Reading, n: nat)
    requires |data| <= MAX_FILE && StaysInside(data, r)
    ensures !Run(data, r, n).ending.RanOutside?
    decreases n
  {
    hide Round, StaysInside;
    if n > 0 {
      RoundStaysInside(data, r);
      if NextReading(data, r) != None {
        InsideRun(data, NextReading(data, r).value, n - 1);
      }
    }
  }

  // A file whose chunks fit is read to an end without leaving it.
  lemma FittingFileRead(data: seq<byte>, n: nat)
    requires |data| <= MAX_FILE && Opened(data) != None && n >= |data|
    ensures Forward(data, 14) ==> !Run(data, Opened(data).value, n).ending.Unfinished?
    ensures Fits(data, 14) ==> Run(data, Opened(data).value, n).ending.Ended?
  {
    hide Run;
    var r := Opened(data).value;
    if Forward(data, 14) {
      ForwardEnds(data, r, n);
    }
    if Fits(data, 14) {
      FitsGoesForward(data, 14);
      ForwardEnds(data, r, n);
      InsideRun(data, r, n);
    }
  }

  // ---------- a track that is longer than the file ----------

  // The same position in a track that ends where the file ends.
  function Cut(data: seq<byte>, r: Reading): Reading
    requires |data| < WORD
  {
    r.(trackEnd := |data|)
  }

  // What a round does in a track that goes on after the end of the file, compared with the
  // track cut there.
  predicate SameUpToCut(data: seq<byte>, full: Step, cut: Step)
    requires |data| < WORD
  {
    match cut
    case Got(time, msg, next) => full.Got? && full.time == time && full.msg == msg && Cut(data, full.next) == next
    case EndOfTrack(next) => full.EndOfTrack? && full.next.trackEnd == 0 && full.next.pos > |data| && next.pos == |data|
      && next.trackEnd == 0
    case Stop(why, _) => if why == Incomplete then full.Outside? || (full.Stop? && full.why == Incomplete)
      else full.Stop? && full.why == why
    case _ => false
  }

  // A message cannot end after the end of a track that is this long.
  predicate FarOutside(data: seq<byte>, r: Reading) {
    r.trackEnd >= |data| + 0x101
  }

  lemma {:induction false} CutTime(data: seq<byte>, pos: word, end: word, time: nat)
    requires pos <= |data| < end
    ensures var cut := DecodeTime(data, pos, |data|, time);
            var full := DecodeTime(data, pos, end, time);
            cut.Some? && cut.value.1 <= |data| && if full == None then cut.value.1 == |data| else full == cut
    decreases |data| - pos
  {
    if pos < |data| && data[pos] >= 128 {
      CutTime(data, pos + 1, end, (time * 128 + data[pos] % 128) % WORD);
    }
  }

  lemma CutStart(data: seq<byte>, pos: word, end: word, status: byte)
    requires pos <= |data| < end && |data| <= MAX_FILE
    ensures var cut := MessageStart(data, pos, |data|, status);
            var full := MessageStart(data, pos, end, status);
            && (if cut.TooShort? then full.StartOutside? || full.TooShort? else full == cut && !cut.StartOutside?)
            && (cut.Start? ==> cut.from <= |data|)
            && (end >= |data| + 0x101 ==> !full.TooShort?)
  {
    hide DataOf;
  }

  lemma CutMessage(data: seq<byte>, r: Reading, time: nat, status: byte)
    requires r.pos <= |data| < r.trackEnd && |data| <= MAX_FILE
    ensures SameUpToCut(data, AfterStatus(data, r, time, status), AfterStatus(data, Cut(data, r), time, status))
    ensures var step := AfterStatus(data, r, time, status);
            FarOutside(data, r) ==> !(step.Stop? && step.why == Incomplete)
  {
    hide MessageStart, ReadBytes, Wrap;
    CutStart(data, r.pos, r.trackEnd, status);
    var start := MessageStart(data, r.pos, r.trackEnd, status);
    if start.Start? {
      BytesRead(data, start.from, start.len);
      NoWrap(start.from + start.len);
    }
  }

  lemma CutTrack(data: seq<byte>, r: Reading)
    requires r.pos <= |data| < r.trackEnd && |data| <= MAX_FILE
    ensures SameUpToCut(data, InTrack(data, r), InTrack(data, Cut(data, r)))
    ensures FarOutside(data, r) ==> !(InTrack(data, r).Stop? && InTrack(data, r).why == Incomplete)
  {
    hide DecodeTime, AfterStatus;
    CutTime(data, r.pos, r.trackEnd, 0);
    var time := DecodeTime(data, r.pos, r.trackEnd, 0);
    if time.Some? && time.value.1 < |data| {
      var s := r.(pos := time.value.1);
      CutMessage(data, s.(pos := s.pos + 1), time.value.0, data[s.pos]);
      CutMessage(data, s, time.value.0, s.lastStatus);
    }
  }

  predicate EndsIncomplete(o: Outcome) {
    o.ending.Ended? && o.ending.why == Incomplete
  }

  // For every track that is longer than the file: the same messages are read as if the track
  // ended with the file.  Where that would be noticed as an incomplete time or message the
  // reader leaves the file, unless the message is too long even for the length of the track.
  lemma {:induction false} OverlongTrack(data: seq<byte>, r: Reading, n: nat)
    requires r.pos <= |data| < r.trackEnd && 0 < |data| <= MAX_FILE
    ensures Run(data, r, n).events == Run(data, Cut(data, r), n).events
    ensures Run(data, r, n).ending.RanOutside? || EndsIncomplete(Run(data, r, n)) <==>
            EndsIncomplete(Run(data, Cut(data, r), n))
    ensures FarOutside(data, r) ==> !EndsIncomplete(Run(data, r, n))
    decreases n
  {
    hide InTrack, StartTrack;
    if n > 0 && r.pos < |data| {
      CutTrack(data, r);
      TrackAdvances(data, r);
      var step := InTrack(data, r);
      if step.Got? {
        OverlongTrack(data, step.next, n - 1);
      }
    }
  }

  // ---------- two files ----------

  lemma HeaderOpens(data: seq<byte>)
    requires At(data, 0, FileHeader())
    ensures Opened(data) == Some(Reading(14, 0, 0, 1))
  {
    hide BE, FromBE;
    Ranges();
    BERoundTrip(6, 4);
    BERoundTrip(0, 2);
    BERoundTrip(1, 2);
    var more := BE(0, 2) + (BE(1, 2) + BE(0xE728, 2));
    assert FileHeader() == MTHD + (BE(6, 4) + more);
    AtSplit(data, 0, MTHD, BE(6, 4) + more);
    AtSplit(data, 4, BE(6, 4), more);
    AtSplit(data, 8, BE(0, 2), BE(1, 2) + BE(0xE728, 2));
    AtSplit(data, 10, BE(1, 2), BE(0xE728, 2));
  }

  lemma FirstChunk(kind: seq<byte>, length: nat, rest: seq<byte>)
    requires |kind| == 4 && length < WORD
    ensures var data := FileHeader() + (kind + BE(length, 4) + rest);
            && |data| == 22 + |rest| && Opened(data) == Some(Reading(14, 0, 0, 1))
            && (IsTrack(data, 14) <==> kind == MTRK) && ChunkLength(data, 14) == length
  {
    hide BE, FromBE, Opened, FileHeader;
    var chunk := kind + BE(length, 4) + rest;
    var data := FileHeader() + chunk;
    AtSplit(data, 0, FileHeader(), chunk) by { assert data[0..|data|] == data; }
    HeaderOpens(data);
    assert chunk == kind + (BE(length, 4) + rest);
    AtSplit(data, 14, kind, BE(length, 4) + rest);
    AtSplit(data, 18, BE(length, 4), rest);
    Ranges();
    BERoundTrip(length, 4);
  }

  // A chunk that is not a track and has the length 2^32 - 8 is met again and again.
  lemma {:induction false} StuckForEver(kind: seq<byte>, rest: seq<byte>, n: nat)
    requires |kind| == 4 && kind != MTRK
    ensures var data := FileHeader() + (kind + BE(WORD - 8, 4) + rest);
            Opened(data) != None && Run(data, Opened(data).value, n) == Outcome([], Unfinished(Opened(data).value))
  {
    hide FileHeader, BE, IsTrack, ChunkLength, Opened;
    FirstChunk(kind, WORD - 8, rest);
    if n > 0 {
      StuckForEver(kind, rest, n - 1);
    }
  }

  // A file that ends with the header of a track which has some length is left at once.
  lemma LeftAtOnce(length: nat)
    requires 0 < length && 22 + length < WORD
    ensures var data := FileHeader() + (MTRK + BE(length, 4) + []);
            |data| == 22 && Opened(data) != None && Run(data, Opened(data).value, 1) == Outcome([], RanOutside)
  {
    hide FileHeader, BE, IsTrack, ChunkLength, Opened;
    FirstChunk(MTRK, length, []);
  }
}
