// Which bytes make which message: the messages of a track by their status bytes, with running
// status, and times of any length.
module MidiLaws {
  import opened Arithmetic
  import opened Bytes
  import opened MidiFile
  import opened MidiRecorder
  import opened Options

  // Channel messages have two data bytes, those with a status of 0xC0 to 0xDF one.  The status
  // byte may be left out if the message before was one as well: then its status counts.
  lemma ChannelMessages(data: seq<byte>, r: Reading, time: nat)
    requires r.pos < r.trackEnd <= |data| < WORD - 2
    ensures var given := data[r.pos] >= 128;
            var status := if given then data[r.pos] else r.lastStatus;
            var from := if given then r.pos + 1 else r.pos;
            var n := if 0xC0 <= status < 0xE0 then 1 else 2;
            var s := r.(lastStatus := status);
            0x80 <= status < 0xF0 ==>
              AfterTime(data, r, time) ==
              if from + n <= r.trackEnd then Got(time, [status] + data[from..from + n], s.(pos := from + n))
              else Stop(Incomplete, s.(pos := from))
  {
    hide AfterStatus;
    var status := if data[r.pos] >= 128 then data[r.pos] else r.lastStatus;
    if 0x80 <= status < 0xF0 {
      ChannelData(data, if data[r.pos] >= 128 then r.(pos := r.pos + 1) else r, time, status);
    }
  }

  lemma ChannelData(data: seq<byte>, r: Reading, time: nat, status: byte)
    requires r.pos <= r.trackEnd <= |data| < WORD - 2 && 0x80 <= status < 0xF0
    ensures var n := if 0xC0 <= status < 0xE0 then 1 else 2;
            var s := r.(lastStatus := status);
            AfterStatus(data, r, time, status) ==
            if r.pos + n <= r.trackEnd then Got(time, [status] + data[r.pos..r.pos + n], s.(pos := r.pos + n))
            else Stop(Incomplete, s)
  {
    var n := if 0xC0 <= status < 0xE0 then 1 else 2;
    assert DataOf(status) == Some(n);
    hide DataOf, ReadBytes;
    BytesInOrder(data, r.pos, n);
    assert Wrap(r.pos + n) == r.pos + n;
  }

  // A message cannot begin with a data byte if there is no status to go on with.
  lemma StatusMissing(data: seq<byte>, r: Reading, time: nat)
    requires r.pos < r.trackEnd && r.pos < |data| && data[r.pos] < 128 && r.lastStatus == 0
    ensures AfterTime(data, r, time) == Stop(Unreadable, r)
  {
  }

  // System messages end running status.  0xF1 and 0xF3 have one data byte, 0xF2 has two, 0xF6,
  // 0xF8 to 0xFC and 0xFE have none; 0xF4, 0xF5 and 0xFD are unknown.
  lemma SystemMessages(data: seq<byte>, r: Reading, time: nat)
    requires r.pos < r.trackEnd <= |data| < WORD - 3
    requires 0xF0 < data[r.pos] < 0xFF && data[r.pos] != 0xF7
    ensures var status := data[r.pos];
            var n := if status == 0xF2 then 2 else if status == 0xF1 || status == 0xF3 then 1 else 0;
            var next := r.(pos := r.pos + 1, lastStatus := 0);
            AfterTime(data, r, time) ==
            if status in {0xF4, 0xF5, 0xFD} then Stop(Unreadable, next)
            else if next.pos + n <= r.trackEnd then
              Got(time, [status] + data[next.pos..next.pos + n], next.(pos := next.pos + n))
            else Stop(Incomplete, next)
  {
    var status := data[r.pos];
    var n := if status == 0xF2 then 2 else if status == 0xF1 || status == 0xF3 then 1 else 0;
    assert DataOf(status) == if status in {0xF4, 0xF5, 0xFD} then None else Some(n);
    hide DataOf, ReadBytes;
    BytesInOrder(data, r.pos + 1, n);
    assert Wrap(r.pos + 1 + n) == r.pos + 1 + n;
  }

  // Exclusive messages carry one byte that tells their length; it is no part of the message.
  lemma ExclusiveMessages(data: seq<byte>, r: Reading, time: nat)
    requires r.pos < r.trackEnd <= |data| < WORD - 300 && (data[r.pos] == 0xF0 || data[r.pos] == 0xF7)
    ensures var next := r.(pos := r.pos + 1, lastStatus := 0);
            AfterTime(data, r, time) ==
            if next.pos == r.trackEnd then Stop(Incomplete, next)
            else
              var from, n := next.pos + 1, data[next.pos];
              if from + n <= r.trackEnd then Got(time, [data[r.pos]] + data[from..from + n], next.(pos := from + n))
              else Stop(Incomplete, next.(pos := from))
  {
    hide DataOf, ReadBytes;
    assert Wrap(r.pos + 2) == r.pos + 2;
    if r.pos + 1 < r.trackEnd {
      var n := data[r.pos + 1];
      assert Wrap(r.pos + 2 + n) == r.pos + 2 + n;
      BytesInOrder(data, r.pos + 2, data[r.pos + 1]);
    }
  }

  // Meta messages carry a kind and their length, both parts of the message; kind 0x2F without
  // data is the end of the track.
  lemma MetaMessages(data: seq<byte>, r: Reading, time: nat)
    requires r.pos < r.trackEnd <= |data| < WORD - 300 && data[r.pos] == 0xFF
    ensures var next := r.(pos := r.pos + 1, lastStatus := 0);
            AfterTime(data, r, time) ==
            if next.pos + 2 > r.trackEnd then Stop(Incomplete, next)
            else
              var from, n := next.pos + 2, data[next.pos + 1];
              if from + n > r.trackEnd then Stop(Incomplete, next.(pos := from))
              else if data[next.pos] == 0x2F && n == 0 then EndOfTrack(Reading(r.trackEnd, 0, 0, r.tracks))
              else Got(time, [0xFF, data[next.pos], n] + data[from..from + n], next.(pos := from + n))
  {
    hide DataOf, ReadBytes;
    assert Wrap(r.pos + 2) == r.pos + 2 && Wrap(r.pos + 3) == r.pos + 3;
    if r.pos + 3 <= r.trackEnd {
      var n := data[r.pos + 2];
      assert Wrap(r.pos + 3 + n) == r.pos + 3 + n;
      BytesInOrder(data, r.pos + 3, data[r.pos + 2]);
    }
  }

  lemma {:induction false} BytesInOrder(data: seq<byte>, from: word, n: nat)
    requires |data| < WORD
    ensures from + n <= |data| ==> ReadBytes(data, from, n) == Some(data[from..from + n])
    decreases n
  {
    if n == 0 && from <= |data| {
      assert data[from..from] == [];
    } else if from + n <= |data| {
      NoWrap(from + 1);
      BytesInOrder(data, from + 1, n - 1);
      assert data[from..from + n] == [data[from]] + data[from + 1..from + n];
    }
  }

  // Seven bits of every byte, the first byte counting most.
  function SevenBits(b: seq<byte>): nat {
    if b == [] then 0 else SevenBits(b[..|b| - 1]) * 128 + b[|b| - 1] % 128
  }

  // A time goes on as long as the top bit of its bytes is set, and is taken modulo 2^32.  The
  // last of its bytes is at `last`, and those before `now` have been read.
  lemma {:induction false} TimesOfAnyLength(data: seq<byte>, pos: nat, now: word, last: word, end: word)
    requires pos <= now <= last < end && last < |data|
    requires data[last] < 128 && forall i :: pos <= i < last ==> data[i] >= 128
    ensures DecodeTime(data, now, end, SevenBits(data[pos..now]) % WORD)
         == Some((SevenBits(data[pos..last + 1]) % WORD, last + 1))
    decreases last - now
  {
    hide SevenBits;
    OneMoreByte(data, pos, now);
    if now < last {
      TimesOfAnyLength(data, pos, now + 1, last, end);
    }
  }

  lemma OneMoreByte(data: seq<byte>, pos: nat, now: nat)
    requires pos <= now < |data|
    ensures SevenBits(data[pos..now + 1]) % WORD == (SevenBits(data[pos..now]) % WORD * 128 + data[now] % 128) % WORD
  {
    var longer := data[pos..now + 1];
    assert longer[..|longer| - 1] == data[pos..now] && longer[|longer| - 1] == data[now];
    Shifted(SevenBits(data[pos..now]), data[now] % 128);
  }

  lemma Shifted(v: nat, low: nat)
    ensures (v % WORD * 128 + low) % WORD == (v * 128 + low) % WORD
  {
    var q := v / WORD;
    assert v == q * WORD + v % WORD;
    WrapTwice(v * 128, low);
    assert v * 128 + low == (v % WORD * 128 + low) + q * 128 * WORD;
    Turns(v % WORD * 128 + low, q * 128);
  }

  lemma Turns(x: nat, q: nat)
    ensures (x + q * WORD) % WORD == x % WORD
  {
  }

  // A time that has not ended with its track counts as 0.
  lemma {:induction false} TimeUnended(data: seq<byte>, pos: word, end: word, value: nat)
    requires pos <= end <= |data| && forall i :: pos <= i < end ==> data[i] >= 128
    ensures DecodeTime(data, pos, end, value) == Some((0, end))
    decreases end - pos
  {
    if pos < end {
      TimeUnended(data, pos + 1, end, (value * 128 + data[pos] % 128) % WORD);
    }
  }

  // A file header is "MThd", the length 6, and type 0 with one track or type 1 with at least one.
  lemma HeadersAccepted(data: seq<byte>)
    ensures Opened(data).Some? <==>
            && |data| >= 14 && data[..8] == [77, 84, 104, 100, 0, 0, 0, 6]
            && ((data[8..12] == [0, 0, 0, 1]) || (data[8..10] == [0, 1] && data[10..12] != [0, 0]))
    ensures Opened(data).Some? ==>
              Opened(data).value == Reading(14, 0, 0, 256 * (data[10] as int) + data[11])
  {
    hide FromBE;
    if |data| >= 14 {
      var length, kind, tracks := data[4..8], data[8..10], data[10..12];
      FourWeights(length);
      TwoWeights(kind);
      TwoWeights(tracks);
      assert data[..8] == data[..4] + length && data[8..12] == kind + tracks;
      Halves(data[..4], length, MTHD, [0, 0, 0, 6]);
      Halves(kind, tracks, [0, 0], [0, 1]);
      assert [77, 84, 104, 100, 0, 0, 0, 6] == MTHD + [0, 0, 0, 6] && [0, 0, 0, 1] == [0, 0] + [0, 1];
    }
  }

  lemma Halves(a: seq<byte>, b: seq<byte>, c: seq<byte>, d: seq<byte>)
    requires |a| == |c|
    ensures a + b == c + d <==> a == c && b == d
  {
    if a + b == c + d {
      assert (a + b)[..|a|] == a && (c + d)[..|a|] == c;
      assert (a + b)[|a|..] == b && (c + d)[|a|..] == d;
    }
  }

  // Chunks that are not "MTrk" are skipped; a track starts with "MTrk" and its length.
  lemma ChunksByName(data: seq<byte>, r: Reading)
    requires r.pos + 8 <= |data| < WORD
    ensures var p: nat := r.pos;
            var w0: int, w1: int, w2: int, w3: int := data[p + 4], data[p + 5], data[p + 6], data[p + 7];
            var end := (p + 8 + 0x100_0000 * w0 + 0x1_0000 * w1 + 0x100 * w2 + w3) % WORD;
            StartTrack(data, r) ==
            if data[p..p + 4] == [77, 84, 114, 107] then
              Track(Reading(p + 8, end, 0, if r.tracks == 0 then 0 else r.tracks - 1))
            else if end >= |data| then Missing(r.(pos := end))
            else Other(r.(pos := end))
  {
    hide FromBE;
    FourWeights(data[r.pos + 4..r.pos + 8]);
  }

  // A call records its messages in order; the first one carries the time since the last call
  // that recorded something, the others none.
  lemma {:induction false} RecordedInOrder(last: int, time: int, msgs: seq<Message>, k: nat)
    requires k < |msgs|
    ensures |Recorded(last, time, msgs)| == |msgs|
    ensures Recorded(last, time, msgs)[k] == Event(if k == 0 then (time - last) % WORD else 0, msgs[k])
    decreases |msgs|
  {
    var n := |msgs| - 1;
    if n > 0 {
      RecordedInOrder(last, time, msgs[..n], if k < n then k else 0);
    } else {
      assert msgs[..0] == [] && Recorded(last, time, []) == [];
    }
  }

  // A file counts as read unless its track or the file itself goes on after the last position.
  lemma ReadToTheEnd(data: seq<byte>, last: Reading)
    ensures Complete(data, last) <==> !(last.pos < last.trackEnd || last.pos < |data|)
  {
  }

  // How every recording begins and ends: type 0, one track, 25 frames per second and 40 ticks
  // per frame; a text message with the name at once, and the end of the track one tick after the
  // last event.
  lemma RecordingFrame(name: seq<byte>, events: seq<Event>)
    ensures var file := FileBytes(name, events);
            && |file| >= 29
            && file[..14] == [77, 84, 104, 100, 0, 0, 0, 6, 0, 0, 0, 1, 0xE7, 0x28]
            && file[14..18] == [77, 84, 114, 107]
            && file[22..25] == [0, 0xFF, 4]
            && file[|file| - 4..] == [1, 0xFF, 0x2F, 0]
  {
    hide Vlq, EventsBytes, BE;
    HeaderStored();
  }

  lemma HeaderStored()
    ensures BE(6, 4) == [0, 0, 0, 6] && BE(0, 2) == [0, 0] && BE(1, 2) == [0, 1] && BE(0xE728, 2) == [0xE7, 0x28]
  {
    TwoStored(0);
    TwoStored(1);
    TwoStored(6);
    TwoStored(0xE728);
    assert BE(6, 4) == BE(0, 3) + [6] && BE(0, 3) == BE(0, 2) + [0];
  }

  lemma TwoStored(n: nat)
    ensures BE(n, 2) == [n / 256 % 256, n % 256]
  {
    assert BE(n / 256, 1) == BE(n / 256 / 256, 0) + [n / 256 % 256];
  }
}
