// What becomes of a recording when it is read back.  The recorder writes the length of an
// exclusive message or of a text with as many bytes as it needs, the reader takes one byte.
module MidiRoundTrip {
  import opened Arithmetic
  import opened Bytes
  import opened MidiFile
  import opened MidiRecorder
  import opened MidiRuns
  import opened Options

  // ---------- times ----------

  lemma {:induction false} LeadingDecoded(data: seq<byte>, pos: word, end: word, n: nat)
    requires n < WORD && At(data, pos, Leading(n)) && pos + |Leading(n)| < end <= |data|
    ensures DecodeTime(data, pos, end, 0) == DecodeTime(data, pos + |Leading(n)|, end, n)
  {
    if n > 0 {
      var rest := Leading(n / 128);
      AtSplit(data, pos, rest, [128 + n % 128]);
      AtByte(data, pos + |rest|, [128 + n % 128], 0);
      LeadingDecoded(data, pos, end, n / 128);
      Digits(n);
    }
  }

  lemma Digits(n: nat)
    requires n < WORD
    ensures ((n / 128) * 128 + (128 + n % 128) % 128) % WORD == n
    ensures ((n / 128) * 128 + (n % 128) % 128) % WORD == n
  {
  }

  lemma VlqDecoded(data: seq<byte>, pos: word, end: word, n: nat)
    requires n < WORD && At(data, pos, Vlq(n)) && pos + |Vlq(n)| <= end <= |data|
    ensures DecodeTime(data, pos, end, 0) == Some((n, pos + |Vlq(n)|))
  {
    AtSplit(data, pos, Leading(n / 128), [n % 128]);
    AtByte(data, pos + |Leading(n / 128)|, [n % 128], 0);
    LeadingDecoded(data, pos, end, n / 128);
    Digits(n);
  }

  // ---------- messages ----------

  // The messages that the program's own events have.
  predicate Recordable(msg: Message) {
    if msg[0] == 0xF0 then |msg| >= 2 && |msg| <= WORD && msg[|msg| - 1] == 0xF7
    else 0x80 <= msg[0] < 0xF0 && |msg| == 1 + DataOf(msg[0]).value
  }

  // The reader can read it back.
  predicate Short(msg: Message) {
    msg[0] == 0xF0 ==> |msg| - 1 < 128
  }

  function StatusAfter(msg: Message): byte {
    if 0x80 <= msg[0] < 0xF0 then msg[0] else 0
  }

  lemma ChannelMessageRead(data: seq<byte>, r: Reading, time: nat, msg: Message)
    requires Recordable(msg) && msg[0] != 0xF0 && At(data, r.pos, msg) && r.pos + |msg| <= r.trackEnd <= |data| < WORD
    ensures AfterTime(data, r, time) == Got(time, msg, Reading(r.pos + |msg|, r.trackEnd, StatusAfter(msg), r.tracks))
  {
    hide ReadBytes;
    assert msg[0] < 0xF0;
    assert DataOf(msg[0]).Some?;
    AtByte(data, r.pos, msg, 0);
    AtSplit(data, r.pos, [msg[0]], msg[1..]) by { assert [msg[0]] + msg[1..] == msg; }
    assert [msg[0]] + data[r.pos + 1..r.pos + |msg|] == msg;
    BytesRead(data, r.pos + 1, |msg| - 1);
  }

  // An exclusive message, as long as the byte after its first one says.
  lemma ExclusiveStart(data: seq<byte>, r: Reading, time: nat)
    requires r.pos + 2 <= r.trackEnd <= |data| < WORD && data[r.pos] == 0xF0
    ensures var end := r.pos + 2 + data[r.pos + 1];
            if end <= r.trackEnd then
              AfterTime(data, r, time) == Got(time, [0xF0]
                + data[r.pos + 2..end], Reading(end, r.trackEnd, 0, r.tracks))
            else Fails(AfterTime(data, r, time))
  {
    hide DataOf, ReadBytes;
    BytesRead(data, r.pos + 2, data[r.pos + 1]);
  }

  // Reading ends here.
  predicate Fails(step: Step) {
    step.Stop? || step.Outside?
  }

  // Reading ends here or gives another message.
  predicate GivesOther(step: Step, msg: Message) {
    Fails(step) || (step.Got? && step.msg != msg)
  }

  lemma ExclusiveBytes(msg: Message)
    requires msg[0] == 0xF0
    ensures MessageBytes(msg) == [0xF0] + (Vlq(|msg| - 1) + msg[1..]) && msg == [0xF0] + msg[1..]
  {
    hide Vlq;
    assert msg == [msg[0]] + msg[1..];
  }

  // The first byte, the length and the rest of a stored exclusive message.
  lemma ExclusiveParts(data: seq<byte>, pos: nat, msg: Message)
    requires msg[0] == 0xF0 && At(data, pos, MessageBytes(msg))
    ensures data[pos] == 0xF0 && At(data, pos + 1, Vlq(|msg| - 1)) && At(data, pos + 1 + |Vlq(|msg| - 1)|, msg[1..])
    ensures |MessageBytes(msg)| == |msg| + |Vlq(|msg| - 1)| && msg == [0xF0] + msg[1..]
  {
    hide Vlq, At, MessageBytes;
    var n: nat := |msg| - 1;
    ExclusiveBytes(msg);
    AtByte(data, pos, MessageBytes(msg), 0);
    AtSplit(data, pos, [0xF0], Vlq(n) + msg[1..]);
    AtSplit(data, pos + 1, Vlq(n), msg[1..]);
  }

  lemma ShortExclusiveRead(data: seq<byte>, r: Reading, time: nat, msg: Message)
    requires msg[0] == 0xF0 && |msg| - 1 < 128 && At(data, r.pos, MessageBytes(msg))
             && r.pos + |MessageBytes(msg)| <= r.trackEnd <= |data| < WORD
    ensures AfterTime(data, r, time) == Got(time, msg, Reading(r.pos + |MessageBytes(msg)|, r.trackEnd, 0, r.tracks))
  {
    hide Vlq, AfterTime, MessageBytes;
    ExclusiveParts(data, r.pos, msg);
    OneDigit(|msg| - 1);
    AtByte(data, r.pos + 1, Vlq(|msg| - 1), 0);
    ExclusiveStart(data, r, time);
  }

  lemma LongExclusiveRead(data: seq<byte>, r: Reading, time: nat, msg: Message)
    requires Recordable(msg) && msg[0] == 0xF0 && |msg| - 1 >= 128
    requires At(data, r.pos, MessageBytes(msg)) && r.pos + |MessageBytes(msg)| <= r.trackEnd <= |data| < WORD
    ensures GivesOther(AfterTime(data, r, time), msg)
  {
    hide Vlq, AfterTime, MessageBytes, At;
    ExclusiveParts(data, r.pos, msg);
    ExclusiveStart(data, r, time);
    if r.pos + 2 + data[r.pos + 1] <= r.trackEnd {
      LongIsLost(data, r.pos + 1, |msg| - 1, msg[1..]);
      var got := data[r.pos + 2..r.pos + 2 + data[r.pos + 1]];
      assert ([0xF0] + got)[1..] == got;
    }
  }

  // An exclusive message comes back as it was, with the position after it, if and only if it
  // is short.
  lemma ExclusiveRead(data: seq<byte>, r: Reading, time: nat, msg: Message)
    requires Recordable(msg) && msg[0] == 0xF0 && At(data, r.pos, MessageBytes(msg))
             && r.pos + |MessageBytes(msg)| <= r.trackEnd <= |data| < WORD
    ensures Short(msg) ==>
              AfterTime(data, r, time) == Got(time, msg, Reading(r.pos + |MessageBytes(msg)|, r.trackEnd, 0, r.tracks))
    ensures !Short(msg) ==> GivesOther(AfterTime(data, r, time), msg)
  {
    hide AfterTime, MessageBytes, At, Recordable;
    if Short(msg) {
      ShortExclusiveRead(data, r, time, msg);
    } else {
      LongExclusiveRead(data, r, time, msg);
    }
  }

  lemma OneDigit(n: nat)
    requires n < 128
    ensures Vlq(n) == [n]
  {
    assert n / 128 == 0 && n % 128 == n;
  }

  lemma TwoDigits(n: nat)
    requires 128 <= n < 256
    ensures Vlq(n) == [129, n - 128]
  {
    assert n / 128 == 1 && n % 128 == n - 128;
    assert Leading(1) == Leading(0) + [129];
  }

  // The reader's idea of a long message, of the length that the first byte of the length
  // gives, is not that message.
  lemma LongIsLost(data: seq<byte>, pos: nat, n: nat, body: seq<byte>)
    requires n >= 128 && |body| == n && body[n - 1] == 0xF7 && At(data, pos, Vlq(n)) && At(data, pos + |Vlq(n)|, body)
    requires pos + 1 + data[pos] <= |data|
    ensures data[pos + 1..pos + 1 + data[pos]] != body
  {
    if n < 256 {
      TwoDigits(n);
      AtByte(data, pos, Vlq(n), 0);
      if n == 129 {
        var got := data[pos + 1..pos + 130];
        if got == body {
          AllEqual(data, pos + 1, n, body);
        }
      }
    }
  }

  // A text that reads the same one position later repeats its first byte.
  lemma AllEqual(data: seq<byte>, pos: nat, n: nat, body: seq<byte>)
    requires n == 129 == |body| && pos + n + 1 <= |data| && data[pos] == 1
    requires data[pos..pos + n] == body && data[pos + 1..pos + 1 + n] == body
    ensures body[n - 1] == 1
  {
    var k := 0;
    assert body[0] == data[pos..pos + n][0];
    while k < n - 1
      invariant k < n && body[k] == 1
    {
      assert body[k] == data[pos + 1..pos + 1 + n][k] && body[k + 1] == data[pos..pos + n][k + 1];
      k := k + 1;
    }
  }

  // ---------- events ----------

  predicate GoodEvent(e: Event) {
    e.delta < WORD && Recordable(e.msg)
  }

  // An event comes back as it was recorded, with the position after it, if its message is
  // short; otherwise something else is read.
  lemma EventRead(data: seq<byte>, r: Reading, e: Event)
    requires GoodEvent(e) && At(data, r.pos, EventBytes(e)) && r.pos + |EventBytes(e)| <= r.trackEnd <= |data| < WORD
    ensures Short(e.msg) ==>
              var next := Reading(r.pos + |EventBytes(e)|, r.trackEnd, StatusAfter(e.msg), r.tracks);
              Round(data, r) == Got(e.delta, e.msg, next)
    ensures !Short(e.msg) ==> GivesOther(Round(data, r), e.msg)
  {
    hide Recordable, AfterTime, Vlq, DecodeTime, StartTrack;
    VlqLength(e.delta);
    AtSplit(data, r.pos, Vlq(e.delta), MessageBytes(e.msg));
    VlqDecoded(data, r.pos, r.trackEnd, e.delta);
    var after := r.(pos := r.pos + |Vlq(e.delta)|);
    assert Round(data, r) == AfterTime(data, after, e.delta);
    if e.msg[0] == 0xF0 {
      ExclusiveRead(data, after, e.delta, e.msg);
    } else {
      ChannelMessageRead(data, after, e.delta, e.msg);
    }
  }

  // The state in which a file of one track is finished.
  function Finish(data: seq<byte>, tracks: nat): Reading
    requires |data| < WORD
  {
    Reading(|data|, 0, 0, tracks)
  }

  lemma EndRead(data: seq<byte>, r: Reading, n: nat)
    requires At(data, r.pos, END_OF_TRACK) && r.pos + 4 == r.trackEnd == |data| < WORD && n >= 2
    ensures Run(data, r, n) == Outcome([], Ended(FileEnd, Finish(data, r.tracks)))
  {
    hide AfterTime, StartTrack;
    AtByte(data, r.pos, END_OF_TRACK, 0);
    AtByte(data, r.pos, END_OF_TRACK, 1);
    AtByte(data, r.pos, END_OF_TRACK, 2);
    AtByte(data, r.pos, END_OF_TRACK, 3);
    EndAfterTime(data, r.(pos := r.pos + 1));
    assert Round(data, r) == EndOfTrack(Finish(data, r.tracks));
    assert Round(data, Finish(data, r.tracks)) == Stop(FileEnd, Finish(data, r.tracks));
  }

  lemma EndAfterTime(data: seq<byte>, r: Reading)
    requires r.pos + 3 == r.trackEnd == |data| < WORD && data[r.pos..] == [0xFF, 0x2F, 0]
    ensures AfterTime(data, r, 1) == EndOfTrack(Finish(data, r.tracks))
  {
    hide DataOf;
    assert data[r.pos] == data[r.pos..][0] && data[r.pos + 1] == data[r.pos..][1]
           && data[r.pos + 2] == data[r.pos..][2];
  }

  predicate AllShort(events: seq<Event>) {
    forall k :: 0 <= k < |events| ==> Short(events[k].msg)
  }

  predicate GoodEvents(events: seq<Event>) {
    forall k :: 0 <= k < |events| ==> GoodEvent(events[k])
  }

  // The events of a track come back if and only if all their messages are short; then reading
  // ends with the file.
  lemma {:induction false} EventsRead(data: seq<byte>, r: Reading, events: seq<Event>, n: nat)
    requires GoodEvents(events) && At(data, r.pos, EventsBytes(events) + END_OF_TRACK)
    requires r.pos + |EventsBytes(events) + END_OF_TRACK| == r.trackEnd == |data| < WORD && n >= |events| + 2
    ensures Run(data, r, n).events == events <==> AllShort(events)
    ensures AllShort(events) ==> Run(data, r, n).ending == Ended(FileEnd, Finish(data, r.tracks))
    decreases |events|
  {
    hide Round, EventBytes, GoodEvent, Short;
    if events == [] {
      assert EventsBytes(events) + END_OF_TRACK == END_OF_TRACK;
      EndRead(data, r, n);
    } else {
      var e := events[0];
      var rest := events[1..];
      FirstEvent(events);
      assert EventsBytes(events) + END_OF_TRACK == EventBytes(e) + (EventsBytes(rest) + END_OF_TRACK);
      AtSplit(data, r.pos, EventBytes(e), EventsBytes(rest) + END_OF_TRACK);
      EventRead(data, r, e);
      AllShortParts(events);
      if Short(e.msg) {
        var next := Reading(r.pos + |EventBytes(e)|, r.trackEnd, StatusAfter(e.msg), r.tracks);
        EventsRead(data, next, rest, n - 1);
        FirstMessage(Run(data, next, n - 1).events, events, e);
      } else if Round(data, r).Got? {
        assert Run(data, r, n).events[0] != events[0];
      }
    }
  }

  lemma FirstMessage(read: seq<Event>, events: seq<Event>, e: Event)
    requires events != [] && events[0] == e
    ensures [e] + read == events <==> read == events[1..]
  {
    assert events == [e] + events[1..];
    assert ([e] + read)[1..] == read;
  }

  lemma AllShortParts(events: seq<Event>)
    requires events != []
    ensures AllShort(events) <==> Short(events[0].msg) && AllShort(events[1..])
  {
    hide Short;
    if Short(events[0].msg) && AllShort(events[1..]) {
      forall k | 0 <= k < |events| ensures Short(events[k].msg) {
        if k > 0 {
          assert events[1..][k - 1] == events[k];
        }
      }
    }
  }

  lemma FirstEvent(events: seq<Event>)
    requires events != []
    ensures EventsBytes(events) == EventBytes(events[0]) + EventsBytes(events[1..])
  {
    assert events == [events[0]] + events[1..];
    EventsJoined([events[0]], events[1..]);
    OneEvent(events[0]);
  }

  lemma OneEvent(e: Event)
    ensures EventsBytes([e]) == EventBytes(e)
  {
    assert [e][..0] == [];
    assert [] + EventBytes(e) == EventBytes(e);
  }

  // ---------- the name ----------

  // A text with the time 0, as long as the byte before it says.
  lemma TextRead(data: seq<byte>, r: Reading)
    requires r.pos + 4 <= r.trackEnd == |data| < WORD && At(data, r.pos, [0, 0xFF, 0x04])
    ensures var len := data[r.pos + 3];
            var end := r.pos + 4 + len;
            if end <= |data| then Round(data, r)
              == Got(0, [0xFF, 0x04, len] + data[r.pos + 4..end], Reading(end, r.trackEnd, 0, r.tracks))
            else Fails(Round(data, r))
  {
    hide AfterTime;
    AtByte(data, r.pos, [0, 0xFF, 0x04], 0);
    AtByte(data, r.pos, [0, 0xFF, 0x04], 1);
    AtByte(data, r.pos, [0, 0xFF, 0x04], 2);
    assert DecodeTime(data, r.pos, r.trackEnd, 0) == Some((0, r.pos + 1));
    TextAfterTime(data, r.(pos := r.pos + 1));
  }

  lemma TextAfterTime(data: seq<byte>, r: Reading)
    requires r.pos + 3 <= r.trackEnd == |data| < WORD && data[r.pos] == 0xFF && data[r.pos + 1] == 0x04
    ensures var len := data[r.pos + 2];
            var end := r.pos + 3 + len;
            if end <= |data| then AfterTime(data, r, 0)
              == Got(0, [0xFF, 0x04, len] + data[r.pos + 3..end], Reading(end, r.trackEnd, 0, r.tracks))
            else Fails(AfterTime(data, r, 0))
  {
    hide DataOf, ReadBytes;
    BytesRead(data, r.pos + 3, data[r.pos + 2]);
  }

  // Where the bytes of a stored name are.
  lemma NameParts(data: seq<byte>, r: Reading, name: seq<byte>)
    requires At(data, r.pos, NameBytes(name))
    ensures At(data, r.pos, [0, 0xFF, 0x04]) && At(data, r.pos + 3, Vlq(|name|))
            && At(data, r.pos + 3 + |Vlq(|name|)|, name)
    ensures |NameBytes(name)| == 3 + |Vlq(|name|)| + |name| && |Vlq(|name|)| >= 1 && data[r.pos + 3] == Vlq(|name|)[0]
  {
    hide At, Vlq;
    VlqLength(|name|);
    assert NameBytes(name) == [0, 0xFF, 0x04] + (Vlq(|name|) + name);
    AtSplit(data, r.pos, [0, 0xFF, 0x04], Vlq(|name|) + name);
    AtSplit(data, r.pos + 3, Vlq(|name|), name);
    AtByte(data, r.pos + 3, Vlq(|name|), 0);
  }

  // A text message; `len` is its byte for the length.
  function TextMessage(len: byte, text: seq<byte>): Message {
    [0xFF, 0x04, len] + text
  }

  lemma ShortNameRead(data: seq<byte>, r: Reading, name: seq<byte>)
    requires |name| < 128 && At(data, r.pos, NameBytes(name))
             && r.pos + |NameBytes(name)| <= r.trackEnd == |data| < WORD
    ensures Round(data, r) == Got(0, TextMessage(|name|, name),
            Reading(r.pos + |NameBytes(name)|, r.trackEnd, 0, r.tracks))
  {
    hide Round, NameBytes, Vlq;
    NameParts(data, r, name);
    OneDigit(|name|);
    TextRead(data, r);
  }

  // The first event is the name, the others are the recorded ones, and the reader closes the
  // file without a complaint.
  ghost predicate ReadBack(data: seq<byte>, name: seq<byte>, events: seq<Event>, o: Outcome) {
    && (exists len: byte :: o.events == [Event(0, TextMessage(len, name))] + events)
    && o.ending.Ended? && Complete(data, o.ending.last)
  }

  // The only long name that comes back is that of 129 bytes 1; one of these is left over then.
  lemma LongNameRead(data: seq<byte>, r: Reading, name: seq<byte>)
    requires |name| >= 128 && At(data, r.pos, NameBytes(name))
             && r.pos + |NameBytes(name)| <= r.trackEnd == |data| < WORD
    ensures var step := Round(data, r);
            || Fails(step)
            || (step.Got? && forall len: byte :: step.msg != TextMessage(len, name))
            || (step.Got? && |NameBytes(name)| == 134 && step.next == Reading(r.pos + 133, r.trackEnd, 0, r.tracks)
               && data[r.pos + 133] == 1)
  {
    hide Round, NameBytes, Vlq, At;
    NameParts(data, r, name);
    VlqLength(|name|);
    TextRead(data, r);
    var step := Round(data, r);
    if step.Got? {
      var len := data[r.pos + 3];
      var text := data[r.pos + 4..r.pos + 4 + len];
      if text == name {
        TwoDigits(|name|);
        AtByte(data, r.pos + 3, Vlq(|name|), 1);
        assert data[r.pos + 5..r.pos + 134] == name by { Slice(data, r.pos + 5, name); }
        AllEqual(data, r.pos + 4, 129, name);
        assert data[r.pos + 5..r.pos + 134][128] == data[r.pos + 133];
      } else {
        forall l: byte ensures step.msg != TextMessage(l, name) {
          assert step.msg[3..] == text && TextMessage(l, name)[3..] == name;
        }
      }
    }
  }

  lemma Slice(data: seq<byte>, pos: nat, bytes: seq<byte>)
    requires At(data, pos, bytes)
    ensures pos + |bytes| <= |data| && data[pos..pos + |bytes|] == bytes
  {
  }

  // With a byte 1 before them, the events of a track do not come back.
  lemma ShiftedEvents(data: seq<byte>, r: Reading, events: seq<Event>, n: nat)
    requires GoodEvents(events) && r.pos + 1 + |EventsBytes(events) + END_OF_TRACK| == r.trackEnd == |data| < WORD
    requires data[r.pos] == 1 && At(data, r.pos + 1, EventsBytes(events) + END_OF_TRACK) && r.lastStatus == 0
    ensures var o := Run(data, r, n);
            !(o.events == events && o.ending.Ended? && Complete(data, o.ending.last))
  {
    hide EventsBytes, EventBytes, GoodEvent, Run, AfterStatus;
    var s := r.(pos := r.pos + 1);
    assert Round(data, r) == AfterTime(data, s, 1);
    FirstByte(events);
    AtByte(data, s.pos, EventsBytes(events) + END_OF_TRACK, 0);
    if data[s.pos] < 128 {
      StopsAt(data, r, n, s);
    } else {
      assert events != [] && events[0].delta >= 128;
      FirstTime(data, r, n);
    }
  }

  // The first byte of a track tells whether the first delta is below 128.
  lemma FirstByte(events: seq<Event>)
    requires GoodEvents(events)
    ensures |EventsBytes(events) + END_OF_TRACK| >= 4
    ensures (EventsBytes(events) + END_OF_TRACK)[0] >= 128 ==> events != [] && events[0].delta >= 128
  {
    hide MessageBytes, Vlq;
    if events != [] {
      FirstEvent(events);
      VlqLength(events[0].delta);
      if events[0].delta < 128 {
        OneDigit(events[0].delta);
      }
    }
  }

  lemma StopsAt(data: seq<byte>, r: Reading, n: nat, s: Reading)
    requires Round(data, r) == Stop(Unreadable, s) && s.pos < |data|
    ensures var o := Run(data, r, n); !(o.ending.Ended? && Complete(data, o.ending.last))
  {
    hide Round;
  }

  // If the time 1 is read then no other first delta comes back.
  lemma FirstTime(data: seq<byte>, r: Reading, n: nat)
    requires r.trackEnd == |data| && r.pos + 1 < |data| && data[r.pos] == 1
    ensures Run(data, r, n).events == [] || Run(data, r, n).events[0].delta == 1
  {
    hide MessageStart, ReadBytes;
    assert DecodeTime(data, r.pos, r.trackEnd, 0) == Some((1, r.pos + 1));
  }

  lemma LongNameLost(data: seq<byte>, r: Reading, name: seq<byte>, events: seq<Event>, n: nat)
    requires |name| >= 128 && GoodEvents(events)
             && At(data, r.pos, NameBytes(name) + (EventsBytes(events) + END_OF_TRACK))
    requires r.pos + |NameBytes(name) + (EventsBytes(events) + END_OF_TRACK)| == r.trackEnd == |data| < WORD
    ensures !ReadBack(data, name, events, Run(data, r, n))
  {
    hide Round, NameBytes, EventsBytes, GoodEvents, TextMessage, Complete;
    AtSplit(data, r.pos, NameBytes(name), EventsBytes(events) + END_OF_TRACK);
    LongNameRead(data, r, name);
    var step := Round(data, r);
    if n > 0 && step.Got? {
      var o := Run(data, r, n);
      assert o.events[0].msg == step.msg;
      if len: byte :| o.events == [Event(0, TextMessage(len, name))] + events {
        assert o.events[0].msg == TextMessage(len, name);
        ShiftedEvents(data, step.next, events, n - 1);
        FirstMessage(Run(data, step.next, n - 1).events, o.events, o.events[0]);
        assert o.events[1..] == events;
      }
    }
  }

  lemma ShortNameKept(data: seq<byte>, r: Reading, name: seq<byte>, events: seq<Event>, n: nat)
    requires |name| < 128 && GoodEvents(events)
             && At(data, r.pos, NameBytes(name) + (EventsBytes(events) + END_OF_TRACK))
    requires r.pos + |NameBytes(name) + (EventsBytes(events) + END_OF_TRACK)| == r.trackEnd == |data| < WORD
             && n >= |events| + 3
    ensures ReadBack(data, name, events, Run(data, r, n)) <==> AllShort(events)
  {
    hide Round, NameBytes, EventsBytes, GoodEvents, TextMessage, AllShort;
    AtSplit(data, r.pos, NameBytes(name), EventsBytes(events) + END_OF_TRACK);
    ShortNameRead(data, r, name);
    var next := Round(data, r).next;
    EventsRead(data, next, events, n - 1);
    var o := Run(data, r, n);
    var first := Event(0, TextMessage(|name|, name));
    assert o.events == [first] + Run(data, next, n - 1).events;
    assert o.events[1..] == Run(data, next, n - 1).events;
    if len: byte :| o.events == [Event(0, TextMessage(len, name))] + events {
      assert o.events[1..] == events;
    }
  }

  // ---------- files ----------

  lemma TrackFound(data: seq<byte>, length: nat)
    requires At(data, 14, TrackHeader(length)) && length < WORD
    ensures StartTrack(data, Reading(14, 0, 0, 1)) == Track(Reading(22, Wrap(22 + length), 0, 0))
  {
    hide BE, FromBE;
    assert TrackHeader(length) == MTRK + BE(length, 4);
    AtSplit(data, 14, MTRK, BE(length, 4));
    Ranges();
    BERoundTrip(length, 4);
  }

  // Reading starts in the track, unless its end has wrapped round.
  lemma FirstRound(data: seq<byte>, end: word, n: nat)
    requires StartTrack(data, Reading(14, 0, 0, 1)) == Track(Reading(22, end, 0, 0)) && |data| > 22 && n > 0
    ensures end > 22 ==> Run(data, Reading(14, 0, 0, 1), n) == Run(data, Reading(22, end, 0, 0), n)
    ensures end <= 22 ==> Run(data, Reading(14, 0, 0, 1), n).events == []
  {
    hide StartTrack, DecodeTime, AfterStatus;
    if end <= 22 {
      assert DecodeTime(data, 22, end, 0) == Some((0, 22)) by { NoTime(data, 22, end); }
    }
  }

  lemma NoTime(data: seq<byte>, pos: word, end: word)
    requires pos >= end
    ensures DecodeTime(data, pos, end, 0) == Some((0, pos))
  {
  }

  // Reading the file of a recording gives its name and all recorded events with their times,
  // and is closed without a complaint, if and only if the file is shorter than 2^32 bytes, the
  // name is shorter than 128 bytes, and no recorded message is too long for the reader.
  lemma RecordingReadBack(name: seq<byte>, events: seq<Event>, n: nat)
    requires GoodEvents(events) && |TrackBytes(name, events) + END_OF_TRACK| < WORD && n >= |events| + 3
    ensures var data := FileBytes(name, events);
            && Opened(data) != None
            && (ReadBack(data, name, events, Run(data, Opened(data).value, n)) <==>
               |data| < WORD && |name| < 128 && AllShort(events))
  {
    hide FileHeader, TrackHeader, NameBytes, EventsBytes, StartTrack, Run, GoodEvents, AllShort, Opened, At, ReadBack;
    var track := TrackBytes(name, events) + END_OF_TRACK;
    var data := FileBytes(name, events);
    assert track == NameBytes(name) + (EventsBytes(events) + END_OF_TRACK);
    FileParts(name, events);
    HeaderOpens(data);
    TrackFound(data, |track|);
    FirstRound(data, Wrap(22 + |track|), n);
    if |data| < WORD {
      var r := Reading(22, |data|, 0, 0);
      if |name| < 128 {
        ShortNameKept(data, r, name, events, n);
      } else {
        LongNameLost(data, r, name, events, n);
      }
    } else {
      NothingBack(data, name, events, Run(data, Reading(14, 0, 0, 1), n));
    }
  }

  lemma FileParts(name: seq<byte>, events: seq<Event>)
    requires |TrackBytes(name, events) + END_OF_TRACK| < WORD
    ensures var data := FileBytes(name, events);
            var track := TrackBytes(name, events) + END_OF_TRACK;
            At(data, 0, FileHeader()) && At(data, 14, TrackHeader(|track|)) && At(data, 22, track)
              && |data| == 22 + |track|
  {
    hide FileHeader, TrackHeader, TrackBytes;
    var track := TrackBytes(name, events) + END_OF_TRACK;
    var data := FileBytes(name, events);
    assert data == FileHeader() + (TrackHeader(|track|) + track);
    AtSplit(data, 0, FileHeader(), TrackHeader(|track|) + track) by { assert data[0..|data|] == data; }
    AtSplit(data, 14, TrackHeader(|track|), track);
  }

  lemma NothingBack(data: seq<byte>, name: seq<byte>, events: seq<Event>, o: Outcome)
    requires o.events == []
    ensures !ReadBack(data, name, events, o)
  {
  }

  // The events of a recording are such events.
  lemma {:induction false} RecordedGood(start: int, calls: seq<Call>)
    requires forall k, m :: 0 <= k < |calls| && m in calls[k].msgs ==> Recordable(m)
    ensures GoodEvents(AllRecorded(start, calls))
  {
    hide Recordable;
    if calls != [] {
      var c := calls[|calls| - 1];
      RecordedGood(start, calls[..|calls| - 1]);
      OneCallGood(LastTime(start, calls[..|calls| - 1]), c.time, c.msgs);
    }
  }

  lemma {:induction false} OneCallGood(last: int, time: int, msgs: seq<Message>)
    requires forall m :: m in msgs ==> Recordable(m)
    ensures GoodEvents(Recorded(last, time, msgs))
  {
    hide Recordable;
    if msgs != [] {
      OneCallGood(last, time, msgs[..|msgs| - 1]);
    }
  }
}
