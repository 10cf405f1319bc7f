// Recording MIDI messages into a Standard MIDI File through a small buffer.
module MidiRecorder {
  import opened Arithmetic
  import opened Bytes

  type Message = m: seq<byte> | m != [] witness [0]

  // A message and the time since the one before it.
  datatype Event = Event(delta: nat, msg: Message)

  const BUFFER_SIZE := 2000

  // ---------- variable-length quantities ----------

  // The bytes before the last one: seven bits each, with the high bit set.
  function Leading(n: nat): seq<byte> {
    if n == 0 then [] else Leading(n / 128) + [128 + n % 128]
  }

  function Vlq(n: nat): seq<byte> {
    Leading(n / 128) + [n % 128]
  }

  // The Standard MIDI File format allows at most four bytes.
  lemma VlqLength(n: nat)
    ensures |Vlq(n)| <= 4 <==> n < 0x1000_0000
    ensures |Vlq(n)| >= 1 && (|Vlq(n)| == 1 <==> n < 128)
    ensures n >= 128 ==> Vlq(n)[0] > 128
  {
    LeadingLength(n / 128);
  }

  lemma {:induction false} LeadingLength(n: nat)
    ensures |Leading(n)| <= 1 <==> n < 0x80
    ensures |Leading(n)| <= 2 <==> n < 0x4000
    ensures |Leading(n)| <= 3 <==> n < 0x20_0000
    ensures |Leading(n)| == 0 <==> n == 0
    ensures n > 0 ==> Leading(n)[0] > 128
  {
    if n > 0 {
      LeadingLength(n / 128);
    }
  }

  // ---------- the file ----------

  const MTHD: seq<byte> := [0x4D, 0x54, 0x68, 0x64]
  const MTRK: seq<byte> := [0x4D, 0x54, 0x72, 0x6B]

  function FileHeader(): (h: seq<byte>)
    ensures |h| == 14
  {
    MTHD + BE(6, 4) + BE(0, 2) + BE(1, 2) + BE(0xE728, 2)
  }

  function TrackHeader(length: nat): (h: seq<byte>)
    ensures |h| == 8
  {
    MTRK + BE(length, 4)
  }

  function MessageBytes(msg: Message): seq<byte> {
    if msg[0] == 0xF0 then [0xF0] + Vlq(|msg| - 1) + msg[1..] else msg
  }

  function EventBytes(e: Event): seq<byte> {
    Vlq(e.delta) + MessageBytes(e.msg)
  }

  function EventsBytes(events: seq<Event>): seq<byte> {
    if events == [] then [] else EventsBytes(events[..|events| - 1]) + EventBytes(events[|events| - 1])
  }

  function NameBytes(name: seq<byte>): seq<byte> {
    [0, 0xFF, 0x04] + Vlq(|name|) + name
  }

  const END_OF_TRACK: seq<byte> := [0x01, 0xFF, 0x2F, 0x00]

  // What follows the header of the track.
  function TrackBytes(name: seq<byte>, events: seq<Event>): seq<byte> {
    NameBytes(name) + EventsBytes(events)
  }

  // A finished file.  The length field of the track has 32 bits.
  function FileBytes(name: seq<byte>, events: seq<Event>): seq<byte> {
    var track := TrackBytes(name, events) + END_OF_TRACK;
    FileHeader() + TrackHeader(|track| % WORD) + track
  }

  // ---------- the times ----------

  // The events that one call of WriteEvent records.  The difference of the times is cut to
  // 32 bits.
  function Recorded(last: int, time: int, msgs: seq<Message>): seq<Event> {
    if msgs == [] then []
    else
      Recorded(last, time, msgs[..|msgs| - 1])
      + [Event(if |msgs| == 1 then (time - last) % WORD else 0, msgs[|msgs| - 1])]
  }

  datatype Call = Call(time: int, msgs: seq<Message>)

  function LastTime(start: int, calls: seq<Call>): int {
    if calls == [] then start
    else
      var c := calls[|calls| - 1];
      if c.msgs == [] then LastTime(start, calls[..|calls| - 1]) else c.time
  }

  // All the events of a recording.
  function AllRecorded(start: int, calls: seq<Call>): seq<Event> {
    if calls == [] then []
    else
      var before := calls[..|calls| - 1];
      var c := calls[|calls| - 1];
      AllRecorded(start, before) + Recorded(LastTime(start, before), c.time, c.msgs)
  }

  function Total(events: seq<Event>): nat {
    if events == [] then 0 else Total(events[..|events| - 1]) + events[|events| - 1].delta
  }

  lemma {:induction false} TotalJoined(a: seq<Event>, b: seq<Event>)
    ensures Total(a + b) == Total(a) + Total(b)
  {
    if b == [] {
      assert a + b == a;
    } else {
      assert (a + b)[..|a + b| - 1] == a + b[..|b| - 1];
      TotalJoined(a, b[..|b| - 1]);
    }
  }

  lemma {:induction false} RecordedTotal(last: int, time: int, msgs: seq<Message>)
    ensures Total(Recorded(last, time, msgs)) == if msgs == [] then 0 else (time - last) % WORD
  {
    if msgs != [] {
      RecordedTotal(last, time, msgs[..|msgs| - 1]);
      var events := Recorded(last, time, msgs);
      assert events[..|events| - 1] == Recorded(last, time, msgs[..|msgs| - 1]);
    }
  }

  // The clock never goes back, nor forward by 2^32 milliseconds between two messages.
  predicate Steady(start: int, calls: seq<Call>) {
    forall k {:trigger calls[k]} :: 0 <= k < |calls| && calls[k].msgs != [] ==>
      0 <= calls[k].time - LastTime(start, calls[..k]) < WORD
  }

  // The deltas add up to the time between the start and the last event: modulo 2^32 always,
  // and exactly if the clock is steady.
  lemma {:induction false} DeltasAddUp(start: int, calls: seq<Call>)
    ensures (Total(AllRecorded(start, calls)) - (LastTime(start, calls) - start)) % WORD == 0
    ensures Steady(start, calls) ==> Total(AllRecorded(start, calls)) == LastTime(start, calls) - start
  {
    hide Steady, Recorded, Total;
    if calls == [] {
      assert Total([]) == 0 by { NoTotal(); }
    } else {
      var before := calls[..|calls| - 1];
      var c := calls[|calls| - 1];
      DeltasAddUp(start, before);
      var last := LastTime(start, before);
      TotalJoined(AllRecorded(start, before), Recorded(last, c.time, c.msgs));
      RecordedTotal(last, c.time, c.msgs);
      Congruent(Total(AllRecorded(start, before)), last - start, c.time - last);
      if Steady(start, calls) {
        SteadyBefore(start, calls);
        if c.msgs != [] {
          Small(c.time - last);
        }
      }
    }
  }

  lemma NoTotal()
    ensures Total([]) == 0
  {
  }

  lemma SteadyBefore(start: int, calls: seq<Call>)
    requires calls != [] && Steady(start, calls)
    ensures Steady(start, calls[..|calls| - 1])
    ensures calls[|calls| - 1].msgs != [] ==>
            0 <= calls[|calls| - 1].time - LastTime(start, calls[..|calls| - 1]) < WORD
  {
    var before := calls[..|calls| - 1];
    forall k | 0 <= k < |before| && before[k].msgs != []
      ensures 0 <= before[k].time - LastTime(start, before[..k]) < WORD
    {
      assert calls[k] == before[k] && calls[..k] == before[..k];
    }
  }

  lemma Small(d: int)
    requires 0 <= d < WORD
    ensures d % WORD == d
  {
  }

  lemma Congruent(a: int, b: int, d: int)
    requires (a - b) % WORD == 0
    ensures (a + d % WORD - (b + d)) % WORD == 0
  {
    var q := d / WORD;
    assert a + d % WORD - (b + d) == (a - b) - q * WORD;
  }

  // ---------- the recorder ----------

  class GOMidiRecorder {
    // the file and whether it is open
    var file: seq<byte>
    var isOpened: bool
    const buffer: array<byte>
    var bufferPos: nat
    var fileLength: nat
    var last: int

    ghost predicate Valid()
      reads this
    {
      && buffer.Length == BUFFER_SIZE
      && bufferPos <= BUFFER_SIZE
      && (isOpened ==> fileLength == |file| % WORD)
    }

    // The headers have been written.
    ghost predicate Started()
      requires Valid()
      reads this, buffer
    {
      isOpened ==> |Written()| >= 22
    }

    // All the bytes written so far.
    ghost function Written(): seq<byte>
      requires Valid()
      reads this, buffer
    {
      file + buffer[..bufferPos]
    }

    constructor ()
      ensures Valid() && !isOpened && fresh(buffer)
    {
      buffer := new byte[BUFFER_SIZE](_ => 0);
      file, isOpened, bufferPos, fileLength, last := [], false, 0, 0, 0;
    }

    method Flush()
      requires Valid()
      modifies this`file, this`fileLength, this`bufferPos
      ensures Valid() && Written() == old(Written()) && file == Written() && bufferPos == 0
    {
      if bufferPos == 0 {
        return;
      }
      WrapTwice(|file|, bufferPos);
      file := file + buffer[..bufferPos];
      fileLength := (fileLength + bufferPos) % WORD;
      bufferPos := 0;
    }

    // Makes room for `length` bytes.
    method Ensure(length: nat)
      requires Valid() && length < BUFFER_SIZE
      modifies this`file, this`fileLength, this`bufferPos
      ensures Valid() && Written() == old(Written()) && bufferPos + length < BUFFER_SIZE
    {
      if bufferPos + length < BUFFER_SIZE {
        return;
      }
      Flush();
    }

    method Write(data: seq<byte>)
      requires Valid()
      modifies this`file, this`fileLength, this`bufferPos, buffer
      ensures Valid() && Written() == old(Written()) + data
    {
      if |data| >= BUFFER_SIZE {
        Flush();
        WrapTwice(|file|, |data|);
        file := file + data;
        fileLength := (fileLength + |data|) % WORD;
        return;
      }
      Ensure(|data|);
      ghost var before := buffer[..bufferPos];
      forall i | 0 <= i < |data| {
        buffer[bufferPos + i] := data[i];
      }
      bufferPos := bufferPos + |data|;
      assert buffer[..bufferPos] == before + data;
      Joined(file, before, data);
    }

    // The digits are put into the buffer from its end.
    method EncodeLength(length: nat)
      requires Valid() && length < WORD
      modifies this`file, this`fileLength, this`bufferPos, buffer
      ensures Valid() && Written() == old(Written()) + Vlq(length)
    {
      var buf: array<byte> := new byte[16](_ => 0);
      var l := 15;
      buf[l] := length % 128;
      var len: nat := length / 128;
      assert buf[15..] == [length % 128];
      while len > 0
        modifies buf
        invariant 10 <= l <= 15 && (l == 10 ==> len == 0)
        invariant (l == 11 ==> len == 0) && (l == 12 ==> len < 0x10) && (l == 13 ==> len < 0x800)
        invariant (l == 14 ==> len < 0x4_0000) && (l == 15 ==> len < 0x200_0000)
        invariant Leading(len) + buf[l..] == Vlq(length)
      {
        ghost var was := buf[l..];
        ghost var digit: byte := 128 + len % 128;
        assert Leading(len) + was == Leading(len / 128) + ([digit] + was);
        l := l - 1;
        buf[l] := 128 + len % 128;
        assert buf[l..] == [digit] + was;
        len := len / 128;
      }
      assert [] + buf[l..] == buf[l..];
      Write(buf[l..]);
    }

    method WriteEvent(time: int, msgs: seq<Message>)
      requires Valid()
      requires forall m :: m in msgs ==> |m| <= WORD
      modifies this, buffer
      ensures Valid() && isOpened == old(isOpened)
      ensures isOpened ==> Written() == old(Written()) + EventsBytes(Recorded(old(last), time, msgs))
      ensures isOpened ==> last == if msgs == [] then old(last) else time
      ensures !isOpened ==> Written() == old(Written()) && last == old(last)
    {
      hide Recorded, EventsBytes, EventBytes;
      if !isOpened {
        return;
      }
      NothingRecorded(last, time);
      assert msgs[..0] == [];
      for i := 0 to |msgs|
        invariant Valid() && isOpened
        invariant Written() == old(Written()) + EventsBytes(Recorded(old(last), time, msgs[..i]))
        invariant last == if i == 0 then old(last) else time
      {
        RecordedOne(old(last), time, msgs, i);
        ghost var done := EventsBytes(Recorded(old(last), time, msgs[..i]));
        WriteMessage((time - last) % WORD, msgs[i]);
        Joined(old(Written()), done, EventBytes(Event((time - last) % WORD, msgs[i])));
        last := time;
      }
      assert msgs[..|msgs|] == msgs;
    }

    // The body of the loop.
    method WriteMessage(delta: nat, msg: Message)
      requires Valid() && delta < WORD && |msg| <= WORD
      modifies this`file, this`fileLength, this`bufferPos, buffer
      ensures Valid() && Written() == old(Written()) + EventBytes(Event(delta, msg))
    {
      hide Vlq;
      EncodeLength(delta);
      if msg[0] == 0xF0 {
        Write([0xF0]);
        EncodeLength(|msg| - 1);
        Write(msg[1..]);
      } else {
        Write(msg);
      }
      assert Written() == old(Written()) + EventBytes(Event(delta, msg));
    }

    // Finishes the file: the end of the track, then the length of the track in its header.
    method StopRecording()
      requires Valid() && Started()
      modifies this, buffer
      ensures Valid() && !isOpened
      ensures old(isOpened) ==> file == Finished(old(Written()))
      ensures !old(isOpened) ==> file == old(file)
    {
      if !isOpened {
        return;
      }
      Write(END_OF_TRACK);
      Flush();
      fileLength := (fileLength - 22) % WORD;
      WrapTwice(|file|, -22);
      file := file[..14] + TrackHeader(fileLength) + file[22..];
      isOpened := false;
    }

    // `created` tells whether the file could be created.
    method StartRecording(name: seq<byte>, created: bool, now: int)
      requires Valid() && Started() && |name| < WORD
      modifies this, buffer
      ensures Valid() && Started() && isOpened == created
      ensures created ==> Written() == FileHeader() + TrackHeader(0) + NameBytes(name) && last == now
    {
      hide Finished, Vlq, FileHeader, TrackHeader;
      StopRecording();
      if !created {
        return;
      }
      file, isOpened, fileLength, bufferPos := [], true, 0, 0;
      assert Written() == [];
      Write(FileHeader());
      Write(TrackHeader(0));
      WriteName(name);
      last := now;
    }

    method WriteName(name: seq<byte>)
      requires Valid() && |name| < WORD
      modifies this`file, this`fileLength, this`bufferPos, buffer
      ensures Valid() && Written() == old(Written()) + NameBytes(name)
    {
      hide Vlq;
      Write([0, 0xFF, 0x04]);
      EncodeLength(|name|);
      Write(name);
      assert Written() == old(Written()) + NameBytes(name);
    }

    // A whole recording.
    method Record(name: seq<byte>, start: int, calls: seq<Call>)
      requires Valid() && Started() && |name| < WORD
      requires forall k, m :: 0 <= k < |calls| && m in calls[k].msgs ==> |m| <= WORD
      modifies this, buffer
      ensures Valid() && !isOpened
      ensures file == FileBytes(name, AllRecorded(start, calls))
    {
      hide Finished, FileBytes, FileHeader, TrackHeader, NameBytes, Recorded, EventsBytes, AllRecorded;
      StartRecording(name, true, start);
      assert AllRecorded(start, []) == [] && EventsBytes([]) == [] by { NothingRecorded(start, start); NoCalls(start); }
      assert calls[..0] == [];
      ghost var headers := FileHeader() + TrackHeader(0) + NameBytes(name);
      for i := 0 to |calls|
        invariant Valid() && isOpened
        invariant Written() == headers + EventsBytes(AllRecorded(start, calls[..i]))
        invariant last == LastTime(start, calls[..i])
      {
        MoreRecorded(start, calls, i);
        ghost var done := EventsBytes(AllRecorded(start, calls[..i]));
        WriteEvent(calls[i].time, calls[i].msgs);
        Joined(headers, done, EventsBytes(Recorded(LastTime(start, calls[..i]), calls[i].time, calls[i].msgs)));
      }
      assert calls[..|calls|] == calls;
      HeadersAndTrack(name, AllRecorded(start, calls));
      StopRecording();
    }
  }

  lemma NoCalls(start: int)
    ensures AllRecorded(start, []) == [] && EventsBytes([]) == []
  {
  }

  lemma MoreRecorded(start: int, calls: seq<Call>, i: nat)
    requires i < |calls|
    ensures EventsBytes(AllRecorded(start, calls[..i + 1]))
         == EventsBytes(AllRecorded(start, calls[..i]))
           + EventsBytes(Recorded(LastTime(start, calls[..i]), calls[i].time, calls[i].msgs))
    ensures LastTime(start, calls[..i + 1]) == if calls[i].msgs == [] then LastTime(start, calls[..i])
            else calls[i].time
  {
    hide Recorded, EventsBytes;
    assert calls[..i + 1][..i] == calls[..i];
    EventsJoined(AllRecorded(start, calls[..i]), Recorded(LastTime(start, calls[..i]), calls[i].time, calls[i].msgs));
  }

  lemma {:induction false} EventsJoined(a: seq<Event>, b: seq<Event>)
    ensures EventsBytes(a + b) == EventsBytes(a) + EventsBytes(b)
  {
    hide EventBytes;
    if b == [] {
      assert a + b == a;
    } else {
      assert (a + b)[..|a + b| - 1] == a + b[..|b| - 1];
      EventsJoined(a, b[..|b| - 1]);
      Joined(EventsBytes(a), EventsBytes(b[..|b| - 1]), EventBytes(b[|b| - 1]));
    }
  }

  lemma HeadersAndTrack(name: seq<byte>, events: seq<Event>)
    ensures var written := FileHeader() + TrackHeader(0) + NameBytes(name) + EventsBytes(events);
            |written| >= 22 && Finished(written) == FileBytes(name, events)
  {
    hide FileHeader, TrackHeader, NameBytes, EventsBytes;
    var written := FileHeader() + TrackHeader(0) + NameBytes(name) + EventsBytes(events);
    var all := written + END_OF_TRACK;
    var track := TrackBytes(name, events) + END_OF_TRACK;
    assert all == FileHeader() + TrackHeader(0) + track;
    assert all[..14] == FileHeader() && all[22..] == track;
  }

  // The bytes of a file after the end of the track has been added and its length stored.
  function Finished(written: seq<byte>): seq<byte>
    requires |written| >= 22
  {
    var all := written + END_OF_TRACK;
    all[..14] + TrackHeader((|all| - 22) % WORD) + all[22..]
  }

  lemma NothingRecorded(last: int, time: int)
    ensures EventsBytes(Recorded(last, time, [])) == []
  {
  }

  lemma Joined(a: seq<byte>, b: seq<byte>, c: seq<byte>)
    ensures a + (b + c) == (a + b) + c
  {
  }

  lemma RecordedOne(last: int, time: int, msgs: seq<Message>, i: nat)
    requires i < |msgs|
    ensures EventsBytes(Recorded(last, time, msgs[..i + 1]))
         == EventsBytes(Recorded(last, time, msgs[..i]))
           + EventBytes(Event(if i == 0 then (time - last) % WORD else 0, msgs[i]))
  {
    assert msgs[..i + 1][..i] == msgs[..i];
    var events := Recorded(last, time, msgs[..i + 1]);
    assert events[..|events| - 1] == Recorded(last, time, msgs[..i]);
  }
}
