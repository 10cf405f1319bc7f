// From chunk to chunk through a Standard MIDI File: a walk over at most as many chunks as the
// file has bytes decides whether reading it ends, and whether it leaves the file.
module MidiChunks {
  import opened Arithmetic
  import opened Bytes
  import opened MidiFile
  import opened MidiRecorder
  import opened MidiRuns
  import opened Options
  import opened Orbits
  import opened Sets

  // ---------- one chunk ----------

  // What becomes of reading a track: it stops there, it leaves the file, or the track is passed.
  datatype Passage = Stopped(why: Reason) | Left | Passed

  // Message after message; `r` is inside a track.
  function Through(data: seq<byte>, r: Reading): Passage
    requires |data| <= MAX_FILE && r.pos <= |data|
    decreases |data| - r.pos
  {
    TrackAdvances(data, r);
    match InTrack(data, r)
    case Stop(why, _) => Stopped(why)
    case Outside => Left
    case Skip(_) => Passed
    case EndOfTrack(_) => Passed
    case Got(_, _, next) => if next.pos >= next.trackEnd || next.pos >= |data| then Passed else Through(data, next)
  }

  // The track whose header stands at `pos`.
  function TrackAt(data: seq<byte>, pos: nat): Reading
    requires pos + 8 <= |data| <= MAX_FILE
  {
    Reading(pos + 8, Wrap(ChunkEnd(data, pos)), 0, 0)
  }

  // The end of reading, a read outside, or the position of the next chunk.
  datatype Way = Over | Leaves | Reaches(pos: nat)

  function NextChunk(data: seq<byte>, pos: nat): (w: Way)
    requires |data| <= MAX_FILE
    ensures w.Reaches? ==> w.pos < |data|
  {
    if pos + 8 > |data| then Over
    else
      var passage := if IsTrack(data, pos) then Through(data, TrackAt(data, pos)) else Passed;
      var end := Wrap(ChunkEnd(data, pos));
      if passage.Stopped? then Over
      else if passage.Left? then Leaves
      else if end >= |data| then Over
      else Reaches(end)
  }

  // The way after some number of chunks.
  function Walk(data: seq<byte>, pos: nat, chunks: nat): Way
    requires |data| <= MAX_FILE
    decreases chunks
  {
    if chunks == 0 then Reaches(pos)
    else
      var next := NextChunk(data, pos);
      if next.Reaches? then Walk(data, next.pos, chunks - 1) else next
  }

  // ---------- a chunk is some rounds ----------

  // Reading stands before the chunk at `p`, or nothing is left to be read.
  predicate Before(data: seq<byte>, r: Reading, p: nat) {
    if p >= |data| then r.pos >= |data| else r.pos == p && (r.trackEnd == 0 || r.trackEnd == p)
  }

  lemma {:induction false} RunSplits(data: seq<byte>, r: Reading, k: nat, n: nat)
    ensures var first := Run(data, r, k).ending;
            Run(data, r, k + n).ending == if first.Unfinished? then Run(data, first.now, n).ending else first
    decreases k
  {
    hide Round;
    if k > 0 {
      var step := Round(data, r);
      if !step.Stop? && !step.Outside? {
        RunSplits(data, step.next, k - 1, n);
      }
    }
  }

  // How many tracks are still to come does not matter.
  function Recount(step: Step, tracks: nat): Step {
    match step
    case Stop(why, last) => Stop(why, last.(tracks := tracks))
    case Outside => Outside
    case Skip(next) => Skip(next.(tracks := tracks))
    case EndOfTrack(next) => EndOfTrack(next.(tracks := tracks))
    case Got(time, msg, next) => Got(time, msg, next.(tracks := tracks))
  }

  lemma TracksIrrelevant(data: seq<byte>, r: Reading, tracks: nat)
    ensures InTrack(data, r.(tracks := tracks)) == Recount(InTrack(data, r), tracks)
  {
    hide DecodeTime, MessageStart, ReadBytes;
  }

  lemma {:induction false} ThroughRecounted(data: seq<byte>, r: Reading, tracks: nat)
    requires |data| <= MAX_FILE && r.pos <= |data|
    ensures Through(data, r.(tracks := tracks)) == Through(data, r)
    decreases |data| - r.pos
  {
    hide InTrack;
    TracksIrrelevant(data, r, tracks);
    TrackAdvances(data, r);
    var step := InTrack(data, r);
    if step.Got? && step.next.pos < step.next.trackEnd && step.next.pos < |data| {
      ThroughRecounted(data, step.next, tracks);
    }
  }

  // What the rounds of a track come to.
  predicate Does(data: seq<byte>, o: Ending, passage: Passage, end: nat) {
    match passage
    case Stopped(why) => o.Ended? && o.why == why
    case Left => o.RanOutside?
    case Passed => o.Unfinished? && Before(data, o.now, end)
  }

  // The messages of a track, from a state whose next round reads one of them.
  lemma {:induction false} TrackRounds(data: seq<byte>, r: Reading) returns (k: nat)
    requires |data| <= MAX_FILE && r.pos < |data| && r.pos < r.trackEnd
    ensures 0 < k <= |data| - r.pos && Does(data, Run(data, r, k).ending, Through(data, r), r.trackEnd)
    decreases |data| - r.pos
  {
    hide InTrack, StartTrack;
    TrackAdvances(data, r);
    var step := InTrack(data, r);
    assert Round(data, r) == step;
    OneRound(data, r);
    if step.Got? && step.next.pos < step.next.trackEnd && step.next.pos < |data| {
      var rest := TrackRounds(data, step.next);
      RunSplits(data, r, 1, rest);
      return rest + 1;
    }
    return 1;
  }

  lemma OneRound(data: seq<byte>, r: Reading)
    ensures var step := Round(data, r);
            Run(data, r, 1).ending == if step.Stop? then Ended(step.why, step.last)
              else if step.Outside? then RanOutside else Unfinished(step.next)
  {
    hide Round;
    var step := Round(data, r);
    if !step.Stop? && !step.Outside? {
      NoRound(data, step.next);
    }
  }

  lemma NoRound(data: seq<byte>, r: Reading)
    ensures Run(data, r, 0) == Outcome([], Unfinished(r))
  {
  }

  // A track from its header on.
  lemma TrackFromHeader(data: seq<byte>, r: Reading, s: Reading) returns (k: nat)
    requires |data| <= MAX_FILE && r.pos < s.pos <= |data| && Round(data, r) == InTrack(data, s)
    ensures 0 < k <= |data| - s.pos + 1 && Does(data, Run(data, r, k).ending, Through(data, s), s.trackEnd)
  {
    hide Round, InTrack;
    OneRound(data, r);
    TrackAdvances(data, s);
    var step := InTrack(data, s);
    k := 1;
    if step.Got? && step.next.pos < step.next.trackEnd && step.next.pos < |data| {
      var rest := TrackRounds(data, step.next);
      RunSplits(data, r, 1, rest);
      k := rest + 1;
    }
  }

  // What the rounds of a chunk come to.
  predicate Follows(data: seq<byte>, o: Ending, w: Way) {
    match w
    case Over => o.Ended?
    case Leaves => o.RanOutside?
    case Reaches(p) => o.Unfinished? && Before(data, o.now, p)
  }

  lemma ChunkRounds(data: seq<byte>, r: Reading, p: nat) returns (k: nat)
    requires |data| <= MAX_FILE && p < |data| && Before(data, r, p)
    ensures 0 < k <= |data| && Follows(data, Run(data, r, k).ending, NextChunk(data, p))
  {
    hide InTrack, ChunkLength, IsTrack, Through;
    OneRound(data, r);
    k := 1;
    if p + 8 <= |data| {
      var left := Leave(r);
      assert left.pos == p && left.trackEnd == 0;
      if IsTrack(data, p) {
        var s := StartTrack(data, left).next;
        ThroughRecounted(data, TrackAt(data, p), s.tracks);
        k := TrackFromHeader(data, r, s);
        k := PastTrack(data, r, k, p);
      }
    }
  }

  // After a track that reaches the end of the file one round more ends reading.
  lemma PastTrack(data: seq<byte>, r: Reading, k: nat, p: nat) returns (j: nat)
    requires |data| <= MAX_FILE && p + 8 <= |data| && IsTrack(data, p) && 0 < k <= |data| - p - 7
    requires Does(data, Run(data, r, k).ending, Through(data, TrackAt(data, p)), Wrap(ChunkEnd(data, p)))
    ensures 0 < j <= |data| && Follows(data, Run(data, r, j).ending, NextChunk(data, p))
  {
    hide Round, Run, ChunkLength, IsTrack, Through;
    j := k;
    var end := Wrap(ChunkEnd(data, p));
    if Through(data, TrackAt(data, p)).Passed? && end >= |data| {
      var now := Run(data, r, k).ending.now;
      RunSplits(data, r, k, 1);
      OneRound(data, now);
      AtTheEnd(data, now);
      j := k + 1;
    }
  }

  lemma AtTheEnd(data: seq<byte>, r: Reading)
    requires r.pos >= |data|
    ensures Round(data, r) == Stop(FileEnd, r)
  {
  }

  // ---------- the walk decides ----------

  // No chunk takes more rounds than there are bytes.
  function Most(chunks: nat, size: nat): nat {
    chunks * size
  }

  lemma {:induction false} WalkRounds(data: seq<byte>, r: Reading, p: nat, chunks: nat) returns (k: nat)
    requires |data| <= MAX_FILE && p < |data| && Before(data, r, p)
    ensures k <= Most(chunks, |data|) && Follows(data, Run(data, r, k).ending, Walk(data, p, chunks))
    ensures Walk(data, p, chunks).Reaches? ==> k >= chunks
    decreases chunks
  {
    hide NextChunk, Before, Most, Run;
    if chunks == 0 {
      NoRound(data, r);
      return 0;
    }
    k := ChunkRounds(data, r, p);
    var next := NextChunk(data, p);
    OneMoreChunk(chunks, |data|);
    if next.Reaches? {
      WayInside(data, p);
      var now := Run(data, r, k).ending.now;
      var rest := WalkRounds(data, now, next.pos, chunks - 1);
      RunSplits(data, r, k, rest);
      k := k + rest;
    }
  }

  lemma WayInside(data: seq<byte>, p: nat)
    requires |data| <= MAX_FILE && NextChunk(data, p).Reaches?
    ensures NextChunk(data, p).pos < |data|
  {
  }

  lemma OneMoreChunk(chunks: nat, size: nat)
    requires chunks > 0
    ensures Most(chunks, size) == Most(chunks - 1, size) + size
  {
  }

  function Chunks(data: seq<byte>): nat -> Option<nat>
    requires |data| <= MAX_FILE
  {
    p => var w := NextChunk(data, p); if w.Reaches? then Some(w.pos) else None
  }

  lemma {:induction false} WalkIsOrbit(data: seq<byte>, p: nat, n: nat)
    requires |data| <= MAX_FILE
    ensures Walk(data, p, n).Reaches? <==> After(Chunks(data), p, n) != None
    decreases n
  {
    hide NextChunk;
    if n > 0 && NextChunk(data, p).Reaches? {
      WalkIsOrbit(data, NextChunk(data, p).pos, n - 1);
    }
  }

  // A walk over as many chunks as there are bytes that has not ended goes on for ever.
  lemma WalkGoesOn(data: seq<byte>, p: nat, n: nat)
    requires |data| <= MAX_FILE && p < |data| && Walk(data, p, |data|).Reaches?
    ensures Walk(data, p, n).Reaches?
  {
    hide NextChunk;
    var s := Below(|data|);
    forall q | q in s && Chunks(data)(q) != None ensures Chunks(data)(q).value in s {
      WayInside(data, q);
    }
    WalkIsOrbit(data, p, |data|);
    WalkIsOrbit(data, p, n);
    EndsSoon(Chunks(data), p, s, n);
  }

  // For every file and every number of rounds from the square of its size on: the walk over at
  // most as many chunks as the file has bytes tells whether reading has ended, has left the
  // file, or goes on.
  lemma ReadingDecided(data: seq<byte>, r: Reading, n: nat)
    requires |data| <= MAX_FILE && r.trackEnd == 0 && r.pos < |data| && n >= Most(|data|, |data|)
    ensures var ending := Run(data, r, n).ending;
            match Walk(data, r.pos, |data|)
            case Over => ending.Ended?
            case Leaves => ending.RanOutside?
            case Reaches(_) => ending.Unfinished?
  {
    hide Run, Walk, NextChunk, Most;
    if Walk(data, r.pos, |data|).Reaches? {
      WalkGoesOn(data, r.pos, n);
      var k := WalkRounds(data, r, r.pos, n);
      RunSplits(data, r, n, k - n);
    } else {
      var k := WalkRounds(data, r, r.pos, |data|);
      RunSplits(data, r, k, n - k);
    }
  }

  // Exactly when reading ends, and exactly when it leaves the file.
  lemma ReadingEndsExactly(data: seq<byte>, r: Reading)
    requires |data| <= MAX_FILE && r.trackEnd == 0 && r.pos < |data|
    ensures ReadingEnds(data, r) <==> !Walk(data, r.pos, |data|).Reaches?
    ensures (exists n: nat :: Run(data, r, n).ending.RanOutside?) <==> Walk(data, r.pos, |data|) == Leaves
  {
    hide Run, Walk, Most;
    var all := Most(|data|, |data|);
    ReadingDecided(data, r, all);
    forall n: nat
      ensures !Run(data, r, n).ending.Unfinished? ==> !Run(data, r, all).ending.Unfinished?
      ensures Run(data, r, n).ending.RanOutside? ==> Run(data, r, all).ending.RanOutside?
    {
      if n >= all {
        ReadingDecided(data, r, n);
      } else {
        RunSplits(data, r, n, all - n);
      }
    }
  }

  // The same for a whole file with a good header.
  lemma FileEndsExactly(data: seq<byte>)
    requires |data| <= MAX_FILE && Opened(data) != None
    ensures ReadingEnds(data, Opened(data).value) <==> !Walk(data, 14, |data|).Reaches?
    ensures (exists n: nat :: Run(data, Opened(data).value, n).ending.RanOutside?) <==> Walk(data, 14, |data|) == Leaves
  {
    hide Run, Walk;
    var r := Opened(data).value;
    if |data| == 14 {
      OneRound(data, r);
      AtTheEnd(data, r);
      NothingFollows(data);
      forall n: nat ensures !Run(data, r, n).ending.RanOutside? {
        NoRound(data, r);
        if n > 0 {
          RunSplits(data, r, 1, n - 1);
        }
      }
    } else {
      ReadingEndsExactly(data, r);
    }
  }

  lemma NothingFollows(data: seq<byte>)
    requires |data| == 14
    ensures Walk(data, 14, |data|) == Over
  {
  }

  // ---------- which tracks are left ----------

  // A track that goes on after the end of the file, compared with the track cut there.
  lemma {:induction false} ThroughCut(data: seq<byte>, r: Reading)
    requires r.pos <= |data| < r.trackEnd && |data| <= MAX_FILE
    ensures var full, cut := Through(data, r), Through(data, Cut(data, r));
            && (full == Left || full == Stopped(Incomplete) <==> cut == Stopped(Incomplete))
            && (FarOutside(data, r) ==> full != Stopped(Incomplete))
    decreases |data| - r.pos
  {
    hide InTrack;
    CutTrack(data, r);
    TrackAdvances(data, r);
    TrackAdvances(data, Cut(data, r));
    var step := InTrack(data, r);
    if step.Got? && step.next.pos < |data| {
      ThroughCut(data, step.next);
    }
  }

  lemma {:induction false} ThroughInside(data: seq<byte>, r: Reading)
    requires |data| <= MAX_FILE && r.pos <= |data| && r.trackEnd <= |data|
    ensures Through(data, r) != Left
    decreases |data| - r.pos
  {
    hide InTrack;
    TrackAdvances(data, r);
    var step := InTrack(data, r);
    if step.Got? && step.next.pos < step.next.trackEnd && step.next.pos < |data| {
      ThroughInside(data, step.next);
    }
  }

  // Reading leaves the file in exactly those tracks that are longer than the file, would be
  // found incomplete if they ended with it, and do not end in a message that is too long even
  // for them.
  lemma LeavesExactly(data: seq<byte>, pos: nat)
    requires |data| <= MAX_FILE && pos + 8 <= |data| && IsTrack(data, pos)
    ensures NextChunk(data, pos) == Leaves <==>
              var r := TrackAt(data, pos);
              && |data| < ChunkEnd(data, pos) < WORD
              && Through(data, Cut(data, r)) == Stopped(Incomplete)
              && Through(data, r) != Stopped(Incomplete)
  {
    hide Through, ChunkLength, IsTrack;
    ChunkLengthBounded(data, pos);
    var r := TrackAt(data, pos);
    if r.trackEnd <= |data| {
      ThroughInside(data, r);
    } else {
      ThroughCut(data, r);
    }
  }
}
