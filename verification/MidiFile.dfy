// Reading Standard MIDI Files, message by message.  Positions have 32 bits and wrap round, and
// nothing compares the end of a track with the length of the file.
module MidiFile {
  import opened Arithmetic
  import opened Bytes
  import opened MidiRecorder
  import opened Options

  // The position of the reader; `trackEnd` is 0 between two tracks.
  datatype Reading = Reading(pos: word, trackEnd: word, lastStatus: byte, tracks: nat)

  // Why reading stops: nothing follows, no track follows, a time or a message goes on after
  // the end of its track, or a status is missing or unknown.
  datatype Reason = FileEnd | NoTrack | Incomplete | Unreadable

  // One round of the loops of the reader; `Outside` is a read beyond the end of the file.
  datatype Step =
    | Stop(why: Reason, last: Reading)
    | Outside
    | Skip(next: Reading)
    | EndOfTrack(next: Reading)
    | Got(time: nat, msg: Message, next: Reading)

  datatype Chunk = Missing(last: Reading) | Other(next: Reading) | Track(next: Reading)

  predicate IsTrack(data: seq<byte>, pos: nat)
    requires pos + 8 <= |data|
  {
    data[pos..pos + 4] == MTRK
  }

  function ChunkLength(data: seq<byte>, pos: nat): nat
    requires pos + 8 <= |data|
  {
    FromBE(data[pos + 4..pos + 8])
  }

  // One round of the loop that looks for the next track.
  function StartTrack(data: seq<byte>, r: Reading): Chunk {
    if r.pos >= |data| then Missing(r)
    else if r.pos + 8 > |data| then Missing(r.(pos := Wrap(r.pos + 8)))
    else
      var end := Wrap(r.pos + 8 + ChunkLength(data, r.pos));
      if IsTrack(data, r.pos) then Track(Reading(Wrap(r.pos + 8), end, 0, if r.tracks == 0 then 0 else r.tracks - 1))
      else if end >= |data| then Missing(r.(pos := end))
      else Other(r.(pos := end))
  }

  // A time and the position after it; an incomplete time counts as 0.  None is a read outside.
  function DecodeTime(data: seq<byte>, pos: word, end: word, time: nat): (r: Option<(nat, word)>)
    ensures r.Some? ==> r.value.1 >= pos && (pos < end ==> pos < r.value.1 <= end) && r.value.0 < WORD
    decreases end - pos
  {
    if pos >= end then Some((0, pos))
    else if pos >= |data| then None
    else
      var value := (time * 128 + data[pos] % 128) % WORD;
      if data[pos] >= 128 then DecodeTime(data, pos + 1, end, value) else Some((value, pos + 1))
  }

  function DataOf(status: byte): Option<nat> {
    if status / 16 == 0x8 || status / 16 == 0x9 || status / 16 == 0xA || status / 16 == 0xB
      || status / 16 == 0xE then Some(2)
    else if status / 16 == 0xC || status / 16 == 0xD then Some(1)
    else if status == 0xF6 || 0xF8 <= status <= 0xFC || status == 0xFE then Some(0)
    else if status == 0xF1 || status == 0xF3 then Some(1)
    else if status == 0xF2 then Some(2)
    else None
  }

  // The start of a message, the number of bytes still to be read and the position of these.
  datatype Start = Unknown | TooShort | StartOutside | Start(first: Message, len: nat, from: word)

  function MessageStart(data: seq<byte>, pos: word, end: word, status: byte): (s: Start)
    ensures s.Start? ==> s.len < 256 && s.first[0] == status && (status == 0xFF ==> |s.first| == 3)
  {
    if status == 0xF0 || status == 0xF7 then
      if Wrap(pos + 1) > end then TooShort
      else if pos >= |data| then StartOutside
      else Start([status], data[pos], Wrap(pos + 1))
    else if status == 0xFF then
      if Wrap(pos + 2) > end then TooShort
      else if pos >= |data| || Wrap(pos + 1) >= |data| then StartOutside
      else Start([status, data[pos], data[Wrap(pos + 1)]], data[Wrap(pos + 1)], Wrap(pos + 2))
    else
      var n := DataOf(status);
      if n == None then Unknown else Start([status], n.value, pos)
  }

  // `len` bytes, read one by one.
  function ReadBytes(data: seq<byte>, pos: word, len: nat): (r: Option<seq<byte>>)
    ensures r.Some? ==> |r.value| == len
    decreases len
  {
    if len == 0 then Some([])
    else if pos >= |data| then None
    else
      var rest := ReadBytes(data, Wrap(pos + 1), len - 1);
      if rest == None then None else Some([data[pos]] + rest.value)
  }

  // The message at the position of `r`, after its status.
  function AfterStatus(data: seq<byte>, r: Reading, time: nat, status: byte): Step {
    var s := r.(lastStatus := if status < 0xF0 then status else 0);
    match MessageStart(data, r.pos, r.trackEnd, status)
    case Unknown => Stop(Unreadable, r.(lastStatus := 0))
    case TooShort => Stop(Incomplete, r.(lastStatus := 0))
    case StartOutside => Outside
    case Start(first, len, from) =>
      if Wrap(from + len) > r.trackEnd then Stop(Incomplete, s.(pos := from))
      else
        var bytes := ReadBytes(data, from, len);
        if bytes == None then Outside
        else
          var msg: Message := first + bytes.value;
          if msg[0] == 0xFF && msg[1] == 0x2F && msg[2] == 0 then EndOfTrack(Reading(r.trackEnd, 0, 0, r.tracks))
          else Got(time, msg, s.(pos := Wrap(from + len)))
  }

  function AfterTime(data: seq<byte>, r: Reading, time: nat): Step {
    if r.pos >= r.trackEnd then Stop(Incomplete, r)
    else if r.pos >= |data| then Outside
    else if data[r.pos] >= 128 then AfterStatus(data, r.(pos := r.pos + 1), time, data[r.pos])
    else if r.lastStatus == 0 then Stop(Unreadable, r)
    else AfterStatus(data, r, time, r.lastStatus)
  }

  function InTrack(data: seq<byte>, r: Reading): Step {
    var time := DecodeTime(data, r.pos, r.trackEnd, 0);
    if time == None then Outside else AfterTime(data, r.(pos := time.value.1), time.value.0)
  }

  // A track that is left without an end of track marker.
  function Leave(r: Reading): Reading {
    if r.trackEnd != 0 && r.pos >= r.trackEnd then r.(pos := r.trackEnd, trackEnd := 0) else r
  }

  // One round: a chunk that is not a track, or a message.
  function Round(data: seq<byte>, r: Reading): Step {
    var left := Leave(r);
    if r.pos >= |data| then Stop(FileEnd, r)
    else if left.trackEnd != 0 then InTrack(data, left)
    else
      match StartTrack(data, left)
      case Missing(last) => Stop(NoTrack, last)
      case Other(next) => Skip(next)
      case Track(next) => InTrack(data, next)
  }

  // The messages of a number of rounds, and how they end.
  datatype Ending = Ended(why: Reason, last: Reading) | RanOutside | Unfinished(now: Reading)

  datatype Outcome = Outcome(events: seq<Event>, ending: Ending)

  function Run(data: seq<byte>, r: Reading, rounds: nat): Outcome
    decreases rounds
  {
    if rounds == 0 then Outcome([], Unfinished(r))
    else
      match Round(data, r)
      case Stop(why, last) => Outcome([], Ended(why, last))
      case Outside => Outcome([], RanOutside)
      case Skip(next) => Run(data, next, rounds - 1)
      case EndOfTrack(next) => Run(data, next, rounds - 1)
      case Got(time, msg, next) => Prepend(Event(time, msg), Run(data, next, rounds - 1))
  }

  function Prepend(e: Event, o: Outcome): Outcome {
    o.(events := [e] + o.events)
  }

  // Whether the file counts as read without a complaint when reading stops at `last`.
  predicate Complete(data: seq<byte>, last: Reading) {
    last.trackEnd <= last.pos && |data| <= last.pos
  }

  // The checks of the file header, and where reading starts.
  function Opened(data: seq<byte>): Option<Reading> {
    if |data| < 14 || data[..4] != MTHD || FromBE(data[4..8]) != 6 then None
    else
      var kind := FromBE(data[8..10]);
      var tracks := FromBE(data[10..12]);
      if (kind == 0 && tracks == 1) || (kind == 1 && tracks >= 1) then Some(Reading(14, 0, 0, tracks)) else None
  }

  class GOMidiFileReader {
    var data: seq<byte>
    var pos: word
    var trackEnd: word
    var lastStatus: byte
    var tracks: nat

    function State(): Reading
      reads this
    {
      Reading(pos, trackEnd, lastStatus, tracks)
    }

    method Open(content: seq<byte>) returns (ok: bool)
      modifies this
      ensures ok <==> Opened(content).Some?
      ensures ok ==> data == content && State() == Opened(content).value
    {
      data := content;
      if |data| < 14 {
        return false;
      }
      pos, trackEnd, lastStatus := 14, 0, 0;
      if data[..4] != MTHD || FromBE(data[4..8]) != 6 {
        return false;
      }
      tracks := FromBE(data[10..12]);
      var kind := FromBE(data[8..10]);
      if kind == 0 {
        return tracks == 1;
      } else if kind == 1 {
        return tracks >= 1;
      }
      return false;
    }

    // The body of the loop that looks for a track.
    method StartNextTrack() returns (chunk: Chunk)
      modifies this
      ensures data == old(data) && chunk == StartTrack(data, old(State()))
      ensures State() == if chunk.Missing? then chunk.last else chunk.next
    {
      hide ChunkLength, IsTrack;
      if pos >= |data| {
        return Missing(State());
      }
      if pos + 8 > |data| {
        pos := Wrap(pos + 8);
        return Missing(State());
      }
      var length := ChunkLength(data, pos);
      if !IsTrack(data, pos) {
        pos := Wrap(pos + 8 + length);
        return if pos >= |data| then Missing(State()) else Other(State());
      }
      trackEnd := Wrap(pos + 8 + length);
      if tracks > 0 {
        tracks := tracks - 1;
      }
      pos, lastStatus := Wrap(pos + 8), 0;
      return Track(State());
    }

    method ReadTime() returns (time: Option<nat>)
      modifies this`pos
      ensures DecodeTime(data, old(pos), trackEnd, 0) == if time == None then None else Some((time.value, pos))
    {
      if pos >= trackEnd {
        return Some(0);
      } else if pos >= |data| {
        return None;
      }
      var value := 0;
      var c := data[pos];
      pos := pos + 1;
      while c >= 128
        invariant old(pos) < pos <= trackEnd
        invariant DecodeTime(data, old(pos), trackEnd, 0)
               == if c >= 128 then DecodeTime(data, pos, trackEnd, (value * 128 + c % 128) % WORD)
                  else Some(((value * 128 + c % 128) % WORD, pos))
        decreases trackEnd - pos, c
      {
        value := (value * 128 + c % 128) % WORD;
        if pos >= trackEnd {
          return Some(0);
        } else if pos >= |data| {
          return None;
        }
        c := data[pos];
        pos := pos + 1;
      }
      return Some((value * 128 + c % 128) % WORD);
    }

    // One round of the loops of ReadEvent and StartTrack.
    method ReadNext() returns (step: Step)
      modifies this
      ensures data == old(data) && step == Round(data, old(State()))
      ensures !step.Outside? ==> State() == if step.Stop? then step.last else step.next
    {
      hide StartTrack, DecodeTime, AfterTime;
      if pos >= |data| {
        return Stop(FileEnd, State());
      }
      if trackEnd != 0 && pos >= trackEnd {
        pos, trackEnd := trackEnd, 0;
      }
      if trackEnd == 0 {
        var chunk := StartNextTrack();
        match chunk {
          case Missing(last) => return Stop(NoTrack, last);
          case Other(next) => return Skip(next);
          case Track(_) =>
        }
      }
      var time := ReadTime();
      if time == None {
        return Outside;
      }
      step := ReadAfterTime(time.value);
    }

    method ReadAfterTime(time: nat) returns (step: Step)
      modifies this
      ensures data == old(data) && step == AfterTime(data, old(State()), time)
      ensures !step.Outside? ==> State() == if step.Stop? then step.last else step.next
    {
      hide AfterStatus;
      if pos >= trackEnd {
        return Stop(Incomplete, State());
      } else if pos >= |data| {
        return Outside;
      }
      var status := lastStatus;
      if data[pos] >= 128 {
        status := data[pos];
        pos := pos + 1;
      } else if lastStatus == 0 {
        return Stop(Unreadable, State());
      }
      step := ReadAfterStatus(time, status);
    }

    method ReadAfterStatus(time: nat, status: byte) returns (step: Step)
      modifies this
      ensures data == old(data) && step == AfterStatus(data, old(State()), time, status)
      ensures !step.Outside? ==> State() == if step.Stop? then step.last else step.next
    {
      hide MessageStart;
      lastStatus := 0;
      var start := MessageStart(data, pos, trackEnd, status);
      match start {
        case Unknown => return Stop(Unreadable, State());
        case TooShort => return Stop(Incomplete, State());
        case StartOutside => return Outside;
        case Start(_, _, _) =>
      }
      if status < 0xF0 {
        lastStatus := status;
      }
      pos := start.from;
      if Wrap(pos + start.len) > trackEnd {
        return Stop(Incomplete, State());
      }
      var bytes := ReadData(start.len);
      if bytes == None {
        return Outside;
      }
      var msg: Message := start.first + bytes.value;
      if msg[0] == 0xFF && msg[1] == 0x2F && msg[2] == 0 {
        pos, trackEnd := trackEnd, 0;
        return EndOfTrack(State());
      }
      return Got(time, msg, State());
    }

    method ReadData(len: nat) returns (bytes: Option<seq<byte>>)
      modifies this`pos
      ensures bytes == ReadBytes(data, old(pos), len)
      ensures bytes.Some? ==> pos == Wrap(old(pos) + len)
    {
      hide ReadBytes, Wrap;
      var read: seq<byte> := [];
      NoBytes(data, pos, len);
      for i := 0 to len
        invariant |read| == i && pos == Wrap(old(pos) + i)
        invariant ReadBytes(data, old(pos), len) == Behind(read, ReadBytes(data, pos, len - i))
      {
        NextByte(data, read, pos, len - i);
        if pos >= |data| {
          return None;
        }
        read := read + [data[pos]];
        WrapTwice(old(pos) + i, 1);
        pos := Wrap(pos + 1);
      }
      NoBytes(data, pos, 0);
      assert read + [] == read;
      return Some(read);
    }

    // The loops of ReadAllEvents, ReadEvent and StartTrack.  They need not end, so that the
    // number of their rounds is given.
    method ReadAllMessages(rounds: nat) returns (events: seq<Event>, ending: Ending)
      modifies this
      ensures data == old(data) && Outcome(events, ending) == Run(data, old(State()), rounds)
      ensures ending.Ended? ==> State() == ending.last
      ensures ending.Unfinished? ==> State() == ending.now
    {
      hide Round;
      events := [];
      for i := 0 to rounds
        invariant data == old(data)
        invariant var rest := Run(data, State(), rounds - i);
                  Run(data, old(State()), rounds) == rest.(events := events + rest.events)
      {
        var step := ReadNext();
        match step {
          case Stop(why, last) => return events, Ended(why, last);
          case Outside => return events, RanOutside;
          case Skip(_) =>
          case EndOfTrack(_) =>
          case Got(time, msg, next) =>
            MoreEvents(events, Event(time, msg), Run(data, next, rounds - i - 1).events);
            events := events + [Event(time, msg)];
        }
      }
      return events, Unfinished(State());
    }

    method Close() returns (ok: bool)
      ensures ok <==> Complete(data, State())
    {
      if pos < trackEnd {
        return false;
      }
      return pos >= |data|;
    }
  }

  ghost function Behind(read: seq<byte>, rest: Option<seq<byte>>): Option<seq<byte>> {
    if rest == None then None else Some(read + rest.value)
  }

  lemma NextByte(data: seq<byte>, read: seq<byte>, pos: word, len: nat)
    requires len > 0
    ensures Behind(read, ReadBytes(data, pos, len))
         == if pos >= |data| then None else Behind(read + [data[pos]], ReadBytes(data, Wrap(pos + 1), len - 1))
  {
    if pos < |data| {
      var rest := ReadBytes(data, Wrap(pos + 1), len - 1);
      if rest.Some? {
        assert read + ([data[pos]] + rest.value) == (read + [data[pos]]) + rest.value;
      }
    }
  }

  lemma NoBytes(data: seq<byte>, pos: word, len: nat)
    ensures ReadBytes(data, pos, 0) == Some([]) && Behind([], ReadBytes(data, pos, len)) == ReadBytes(data, pos, len)
    ensures Wrap(pos) == pos
  {
    var read := ReadBytes(data, pos, len);
    assert read.Some? ==> [] + read.value == read.value;
  }

  lemma MoreEvents(events: seq<Event>, e: Event, rest: seq<Event>)
    ensures events + ([e] + rest) == (events + [e]) + rest
  {
  }
}
