// Bass and melody couplers: only the lowest or the highest pressed key is coupled.  The
// destination is a sink here: nothing comes back from it while a key is being changed.
module BasMel {

  datatype Kind = Bass | Melody

  predicate Better(kind: Kind, a: int, b: int) {
    if kind == Bass then a < b else a > b
  }

  predicate Pressed(keys: seq<nat>, k: int) {
    0 <= k < |keys| && keys[k] > 0
  }

  predicate Beyond(kind: Kind, after: int, k: int) {
    after == -1 || Better(kind, after, k)
  }

  // `k` is the best pressed key that is worse than `after`, or the best of all if `after` is
  // -1; it is -1 if there is none.
  ghost predicate IsNext(keys: seq<nat>, kind: Kind, after: int, k: int) {
    if k == -1 then forall j :: Pressed(keys, j) ==> !Beyond(kind, after, j)
    else
      && Pressed(keys, k) && Beyond(kind, after, k)
      && forall j :: Pressed(keys, j) && Beyond(kind, after, j) ==> j == k || Better(kind, k, j)
  }

  lemma NextIsUnique(keys: seq<nat>, kind: Kind, after: int, j: int, k: int)
    requires IsNext(keys, kind, after, j) && IsNext(keys, kind, after, k)
    ensures j == k
  {
  }

  function ScanUp(keys: seq<nat>, from: nat): (k: int)
    requires from <= |keys|
    ensures k == -1 || (from <= k && Pressed(keys, k))
    ensures forall j :: from <= j < (if k == -1 then |keys| else k) ==> keys[j] == 0
    decreases |keys| - from
  {
    if from == |keys| then -1 else if keys[from] > 0 then from else ScanUp(keys, from + 1)
  }

  function ScanDown(keys: seq<nat>, from: nat): (k: int)
    requires from <= |keys|
    ensures k == -1 || (k < from && Pressed(keys, k))
    ensures forall j :: k < j < from ==> keys[j] == 0
  {
    if from == 0 then -1 else if keys[from - 1] > 0 then from - 1 else ScanDown(keys, from - 1)
  }

  function Next(keys: seq<nat>, kind: Kind, after: int): (k: int)
    requires -1 <= after < |keys|
    ensures IsNext(keys, kind, after, k)
  {
    if kind == Bass then ScanUp(keys, after + 1) else ScanDown(keys, if after >= 0 then after else |keys|)
  }

  // The key that is coupled, and the key that may take over when a key is released.
  datatype Tones = Tones(current: int, last: int)

  // What a change of a key makes of them; `keys` are the velocities after the change.
  function Changed(kind: Kind, isNew: bool, keys: seq<nat>, note: nat, velocity: nat, t: Tones): (r: Tones)
    ensures note < |keys| && keys[note] == velocity ==> MayTakeOver(keys, r.last)
  {
    var best := Next(keys, kind, -1);
    var kept := if best != t.current then -1 else t.current;
    var current := if (velocity > 0 && best == note) || (velocity == 0 && best == t.last) then best else kept;
    Tones(current, LastTone(kind, isNew, note, velocity, Next(keys, kind, best)))
  }

  // No key, or one that is pressed.
  predicate MayTakeOver(keys: seq<nat>, last: int) {
    last == -1 || Pressed(keys, last)
  }

  function LastTone(kind: Kind, isNew: bool, note: nat, velocity: nat, next: int): int {
    if !isNew then (if velocity > 0 then note else -1)
    else if kind == Bass then
      if velocity > 0 then (if note < next then note else if next < 0 then note else next)
      else (if note < next then -1 else next)
    else
      if velocity > 0 then (if note > next then note else if next > 0 then next else note)
      else (if note > next then -1 else next)
  }

  // `k` is the lowest, for a melody coupler the highest, of the pressed keys above (below) `after`,
  // or of all of them; -1 if there is none.
  lemma NextExactly(keys: seq<nat>, kind: Kind, after: int, j: nat)
    requires -1 <= after < |keys|
    ensures var k := Next(keys, kind, after);
            && (k == -1 || (0 <= k < |keys| && keys[k] > 0))
            && (k != -1 && after != -1 ==> if kind == Bass then after < k else k < after)
            && (j < |keys| && keys[j] > 0 && kind == Bass && j > after ==> 0 <= k <= j)
            && (j < |keys| && keys[j] > 0 && kind == Melody && (after == -1 || j < after) ==> k >= j)
  {
    var k := Next(keys, kind, after);
    assert j < |keys| && keys[j] > 0 ==> Pressed(keys, j);
  }

  // Which key is coupled after a change: a new best key always, another best key if it was
  // coupled before or, at a release, if it was remembered; otherwise none.
  lemma CoupledAfter(kind: Kind, isNew: bool, keys: seq<nat>, note: nat, velocity: nat, t: Tones)
    requires note < |keys| && keys[note] == velocity
    ensures var best, current := Next(keys, kind, -1), Changed(kind, isNew, keys, note, velocity, t).current;
            && (velocity > 0 && best == note ==> current == note)
            && (velocity > 0 && best != note ==> current == if t.current == best then best else -1)
            && (velocity == 0 ==> current == if t.current == best || t.last == best then best else -1)
  {
    hide Next, LastTone;
  }

  // Which key is remembered.  The old algorithm remembers the last attack until a release.  The
  // new one remembers at an attack the new key if it is the best, else the second best; at a
  // release the second best if it is better than the released key, else none.
  lemma Remembered(kind: Kind, keys: seq<nat>, note: nat, velocity: nat, t: Tones)
    requires note < |keys| && keys[note] == velocity
    ensures Changed(kind, false, keys, note, velocity, t).last == if velocity > 0 then note else -1
    ensures var best := Next(keys, kind, -1);
            var second, last := Next(keys, kind, best), Changed(kind, true, keys, note, velocity, t).last;
            && (velocity > 0 ==> best != -1 && last == if note == best then note else second)
            && (velocity == 0 && second == -1 ==> last == -1)
            && (velocity == 0 && second != -1 && kind == Bass ==> last == if second < note then second else -1)
            && (velocity == 0 && second != -1 && kind == Melody ==> last == if second > note then second else -1)
  {
    hide Next;
    var best := Next(keys, kind, -1);
    var second := Next(keys, kind, best);
    assert velocity > 0 ==> Pressed(keys, note);
    assert IsNext(keys, kind, -1, best) && IsNext(keys, kind, best, second);
    assert second != -1 ==> Pressed(keys, second);
  }

  function Released(v: nat): nat {
    if v > 0 then v - 1 else 0
  }

  class GOCoupler {
    const kind: Kind
    const isNewBasMel: bool
    const keyshift: int
    var engaged: bool
    const keyVelocity: array<nat>
    const internalVelocity: array<nat>
    const outVelocity: array<nat>
    // the slot of this coupler in the destination manual
    const destination: array<nat>
    var currentTone: int
    var lastTone: int

    ghost predicate Shaped()
    {
      && internalVelocity.Length == outVelocity.Length == destination.Length
      && keyVelocity != internalVelocity && keyVelocity != outVelocity && keyVelocity != destination
      && internalVelocity != outVelocity && internalVelocity != destination && outVelocity != destination
    }

    ghost function Tone(): Tones
      reads this
    {
      Tones(currentTone, lastTone)
    }

    // The key that is coupled is the best one or none; the key that may take over is a pressed
    // one or none; only its image has an internal
    // velocity, which is the velocity of the key; the destination gets one less while the
    // coupler is engaged.
    ghost predicate Valid()
      reads this, keyVelocity, internalVelocity, outVelocity, destination
    {
      && Shaped()
      && (currentTone == -1 || currentTone == Next(keyVelocity[..], kind, -1))
      && MayTakeOver(keyVelocity[..], lastTone)
      && (forall i :: 0 <= i < internalVelocity.Length ==>
         internalVelocity[i] == Coupled(keyVelocity[..], currentTone, keyshift, i))
      && Sent()
    }

    ghost predicate Sent()
      requires Shaped()
      reads this, internalVelocity, outVelocity, destination
    {
      forall i :: 0 <= i < internalVelocity.Length ==>
        outVelocity[i] == destination[i] == if engaged then Released(internalVelocity[i]) else 0
    }

    constructor (kind: Kind, isNew: bool, keyshift: int, sourceKeys: nat, destinationKeys: nat)
      ensures Valid() && !engaged && Tone() == Tones(-1, -1)
      ensures this.kind == kind && isNewBasMel == isNew && this.keyshift == keyshift
      ensures keyVelocity.Length == sourceKeys && forall k :: 0 <= k < sourceKeys ==> keyVelocity[k] == 0
      ensures fresh(keyVelocity) && fresh(internalVelocity) && fresh(outVelocity) && fresh(destination)
    {
      this.kind, this.isNewBasMel, this.keyshift := kind, isNew, keyshift;
      engaged, currentTone, lastTone := false, -1, -1;
      keyVelocity := new nat[sourceKeys](_ => 0);
      internalVelocity := new nat[destinationKeys](_ => 0);
      outVelocity := new nat[destinationKeys](_ => 0);
      destination := new nat[destinationKeys](_ => 0);
    }

    method SetOut(noteNumber: int, velocity: nat)
      requires Shaped() && Sent()
      modifies internalVelocity, outVelocity, destination
      ensures Sent()
      ensures forall i :: 0 <= i < internalVelocity.Length ==>
                internalVelocity[i] == if i == noteNumber then velocity else old(internalVelocity[i])
    {
      if noteNumber < 0 || noteNumber >= internalVelocity.Length {
        return;
      }
      if internalVelocity[noteNumber] == velocity {
        return;
      }
      internalVelocity[noteNumber] := velocity;
      if !engaged {
        return;
      }
      var newState := internalVelocity[noteNumber];
      if newState > 0 {
        newState := newState - 1;
      }
      outVelocity[noteNumber] := newState;
      destination[noteNumber] := outVelocity[noteNumber];
    }

    method GetNextBasMelPressedKey(afterKey: int) returns (nextNote: int)
      requires -1 <= afterKey < keyVelocity.Length
      ensures nextNote == Next(keyVelocity[..], kind, afterKey)
    {
      var keys := keyVelocity.Length;
      if kind == Bass {
        nextNote := afterKey + 1;
        while nextNote < keys && keyVelocity[nextNote] == 0
          invariant afterKey < nextNote <= keys
          invariant forall j :: afterKey < j < nextNote ==> keyVelocity[j] == 0
        {
          nextNote := nextNote + 1;
        }
        if nextNote == keys {
          nextNote := -1;
        }
      } else {
        nextNote := (if afterKey >= 0 then afterKey else keys) - 1;
        while nextNote >= 0 && keyVelocity[nextNote] == 0
          invariant -1 <= nextNote < (if afterKey >= 0 then afterKey else keys)
          invariant forall j :: nextNote < j < (if afterKey >= 0 then afterKey else keys) ==> keyVelocity[j] == 0
        {
          nextNote := nextNote - 1;
        }
      }
      NextIsUnique(keyVelocity[..], kind, afterKey, nextNote, Next(keyVelocity[..], kind, afterKey));
    }

    // `was` are the velocities before the change.
    method ChangeKey(note: nat, velocity: nat, ghost was: seq<nat>)
      requires Shaped() && Sent() && note < keyVelocity.Length == |was| && keyVelocity[..] == was[note := velocity]
      requires currentTone == -1 || currentTone == Next(was, kind, -1)
      requires forall i :: 0 <= i < internalVelocity.Length ==>
               internalVelocity[i] == Coupled(was, currentTone, keyshift, i)
      modifies this`currentTone, this`lastTone, internalVelocity, outVelocity, destination
      ensures Valid() && Tone() == Changed(kind, isNewBasMel, keyVelocity[..], note, velocity, old(Tone()))
    {
      hide Next, LastTone;
      var nextNote := GetNextBasMelPressedKey(-1);
      if currentTone != -1 && nextNote != currentTone {
        SetOut(currentTone + keyshift, 0);
        currentTone := -1;
      }
      if (velocity > 0 && nextNote == note) || (velocity == 0 && nextNote == lastTone) {
        currentTone := nextNote;
      }
      if currentTone != -1 {
        SetOut(currentTone + keyshift, keyVelocity[currentTone]);
      }
      SetLastTone(note, velocity, nextNote);
    }

    // The end of ChangeKey: which key may take over next.
    method SetLastTone(note: nat, velocity: nat, best: int)
      requires -1 <= best < keyVelocity.Length && note < keyVelocity.Length && keyVelocity[note] == velocity
      modifies this`lastTone
      ensures lastTone == LastTone(kind, isNewBasMel, note, velocity, Next(keyVelocity[..], kind, best))
      ensures MayTakeOver(keyVelocity[..], lastTone)
    {
      hide Next;
      if isNewBasMel {
        var nextNote := GetNextBasMelPressedKey(best);
        if kind == Bass {
          if velocity > 0 {
            lastTone := if note < nextNote then note else if nextNote < 0 then note else nextNote;
          } else {
            lastTone := if note < nextNote then -1 else nextNote;
          }
        } else {
          if velocity > 0 {
            lastTone := if note > nextNote then note else if nextNote > 0 then nextNote else note;
          } else {
            lastTone := if note > nextNote then -1 else nextNote;
          }
        }
      } else {
        lastTone := if velocity > 0 then note else -1;
      }
    }

    // `velocity` is the highest velocity of the key that may pass; `first` and `count` are the
    // range of the coupler.
    method SetKey(note: nat, velocity: nat, first: nat, count: nat)
      requires Valid()
      modifies this`currentTone, this`lastTone, keyVelocity, internalVelocity, outVelocity, destination
      ensures Valid()
      ensures var accepted := note < keyVelocity.Length && first <= note < first + count
              && old(keyVelocity[..])[note] != velocity;
              if accepted then
                && keyVelocity[..] == old(keyVelocity[..])[note := velocity]
                && Tone() == Changed(kind, isNewBasMel, keyVelocity[..], note, velocity, old(Tone()))
              else keyVelocity[..] == old(keyVelocity[..]) && Tone() == old(Tone())
    {
      if note >= keyVelocity.Length || note < first || note >= first + count {
        return;
      }
      if keyVelocity[note] == velocity {
        return;
      }
      ghost var was := keyVelocity[..];
      keyVelocity[note] := velocity;
      ChangeKey(note, velocity, was);
    }

    // A sequence of key changes, from the start.
    method Play(events: seq<KeyEvent>)
      requires Valid() && Tone() == Tones(-1, -1) && keyVelocity[..] == seq(keyVelocity.Length, _ => 0)
      modifies this`currentTone, this`lastTone, keyVelocity, internalVelocity, outVelocity, destination
      ensures Valid() && keyVelocity[..] == KeysAfter(keyVelocity.Length, events)
      ensures Tone() == TonesAfter(kind, isNewBasMel, keyVelocity.Length, events)
    {
      hide Changed, Valid;
      assert events[..0] == [];
      for i := 0 to |events|
        invariant Valid() && keyVelocity[..] == KeysAfter(keyVelocity.Length, events[..i])
        invariant Tone() == TonesAfter(kind, isNewBasMel, keyVelocity.Length, events[..i])
      {
        assert events[..i + 1][..i] == events[..i];
        ghost var was := keyVelocity[..];
        SetKey(events[i].note, events[i].velocity, 0, keyVelocity.Length);
        assert events[i].note < |was| && was[events[i].note] == events[i].velocity ==>
               was[events[i].note := events[i].velocity] == was;
      }
      assert events[..|events|] == events;
    }

    method OnDrawstopStateChanged(on: bool)
      requires Valid()
      modifies this`engaged, outVelocity, destination
      ensures Valid() && engaged == on
    {
      engaged := on;
      for i := 0 to internalVelocity.Length
        invariant engaged == on
        invariant forall k :: 0 <= k < i ==>
                  outVelocity[k] == destination[k] == if on then Released(internalVelocity[k]) else 0
        invariant forall k :: i <= k < internalVelocity.Length ==> outVelocity[k] == destination[k]
      {
        var newState := if on then internalVelocity[i] else 0;
        if newState > 0 {
          newState := newState - 1;
        }
        if outVelocity[i] != newState {
          outVelocity[i] := newState;
          destination[i] := outVelocity[i];
        }
      }
    }
  }

  // The velocity at position `i` of the destination if `tone` is coupled.
  function Coupled(keys: seq<nat>, tone: int, shift: int, i: int): nat {
    if 0 <= tone < |keys| && i == tone + shift then keys[tone] else 0
  }

  // ---------- what is heard ----------

  // Only the image of the best pressed key can sound in the destination, and with the
  // velocity of that key less one.
  lemma OnlyBestSounds(c: GOCoupler, i: nat)
    requires c.Valid() && i < c.destination.Length && c.destination[i] > 0
    ensures var keys := c.keyVelocity[..];
            var best := Next(keys, c.kind, -1);
            c.engaged && best >= 0 && i == best + c.keyshift && c.destination[i] == keys[best] - 1
  {
  }

  // And it does sound, if it is a key of the destination and the coupler is engaged.
  lemma CoupledSounds(c: GOCoupler)
    requires c.Valid() && c.engaged && c.currentTone != -1 && 0 <= c.currentTone + c.keyshift < c.destination.Length
    ensures 0 <= c.currentTone < c.keyVelocity.Length && c.keyVelocity[c.currentTone] > 0
    ensures c.destination[c.currentTone + c.keyshift] == c.keyVelocity[c.currentTone] - 1
  {
    assert Pressed(c.keyVelocity[..], c.currentTone);
  }

  // With no key pressed nothing sounds.
  lemma SilentWhenReleased(c: GOCoupler)
    requires c.Valid() && forall k :: 0 <= k < c.keyVelocity.Length ==> c.keyVelocity[k] == 0
    ensures c.currentTone == -1 && forall i :: 0 <= i < c.destination.Length ==> c.destination[i] == 0
  {
    var best := Next(c.keyVelocity[..], c.kind, -1);
    assert best == -1 || Pressed(c.keyVelocity[..], best);
  }

  // ---------- runs ----------

  datatype KeyEvent = KeyEvent(note: nat, velocity: nat)

  function KeysAfter(n: nat, events: seq<KeyEvent>): (keys: seq<nat>)
    ensures |keys| == n
  {
    if events == [] then seq(n, _ => 0)
    else
      var keys := KeysAfter(n, events[..|events| - 1]);
      var e := events[|events| - 1];
      if e.note < n then keys[e.note := e.velocity] else keys
  }

  // An event that changes nothing does not reach the machine.
  function TonesAfter(kind: Kind, isNew: bool, n: nat, events: seq<KeyEvent>): Tones {
    if events == [] then Tones(-1, -1)
    else
      var before := events[..|events| - 1];
      var e := events[|events| - 1];
      var t := TonesAfter(kind, isNew, n, before);
      if e.note < n && KeysAfter(n, before)[e.note] != e.velocity then
        Changed(kind, isNew, KeysAfter(n, events), e.note, e.velocity, t)
      else t
  }

  // How the two algorithms stand to each other after the same events.
  ghost predicate Related(keys: seq<nat>, kind: Kind, older: Tones, newer: Tones) {
    var best := Next(keys, kind, -1);
    && (older.current == -1 || older.current == best)
    && (newer.current == -1 || newer.current == best)
    && (older.current != -1 ==> newer.current != -1)
    && (older.last != -1 ==>
          && Pressed(keys, older.last)
          && if older.last == best then newer.current == best else newer.last == Next(keys, kind, best))
  }

  // If the best key changes to a worse one when `r` is released, then `r` was the best key
  // and the next one takes its place.
  lemma NextTakesPlace(keys: seq<nat>, kind: Kind, r: nat)
    requires r < |keys| && keys[r] > 0
    requires Next(keys[r := 0], kind, -1) != -1 && Next(keys[r := 0], kind, -1) != Next(keys, kind, -1)
    ensures r == Next(keys, kind, -1) && Next(keys[r := 0], kind, -1) == Next(keys, kind, r)
  {
    hide Next;
    var after := keys[r := 0];
    var best := Next(keys, kind, -1);
    var k := Next(after, kind, -1);
    assert forall j :: Pressed(after, j) <==> Pressed(keys, j) && j != r;
    assert IsNext(keys, kind, -1, best) && IsNext(after, kind, -1, k);
    assert Pressed(keys, r);
    assert r == best;
    assert IsNext(keys, kind, r, k);
    NextIsUnique(keys, kind, r, k, Next(keys, kind, r));
  }

  lemma ReleaseRelated(was: seq<nat>, kind: Kind, r: nat, older: Tones, newer: Tones)
    requires r < |was| && was[r] > 0 && Related(was, kind, older, newer)
    ensures var keys := was[r := 0];
            Related(keys, kind, Changed(kind, false, keys, r, 0, older), Changed(kind, true, keys, r, 0, newer))
  {
    hide Next, LastTone;
    OldForgets(kind, r, Next(was[r := 0], kind, Next(was[r := 0], kind, -1)));
    var k := Next(was[r := 0], kind, -1);
    if k != -1 && k == older.last && k != Next(was, kind, -1) {
      NextTakesPlace(was, kind, r);
    }
  }

  lemma OldForgets(kind: Kind, r: nat, next: int)
    ensures LastTone(kind, false, r, 0, next) == -1
  {
  }

  lemma AttackRelated(was: seq<nat>, kind: Kind, note: nat, velocity: nat, older: Tones, newer: Tones)
    requires note < |was| && velocity > 0 && Related(was, kind, older, newer)
    ensures var keys := was[note := velocity];
            Related(keys, kind, Changed(kind, false, keys, note, velocity, older),
              Changed(kind, true, keys, note, velocity, newer))
  {
    hide Next;
    var keys := was[note := velocity];
    var best := Next(keys, kind, -1);
    assert Pressed(keys, note);
    assert IsNext(keys, kind, -1, best);
    assert IsNext(keys, kind, best, Next(keys, kind, best));
  }

  lemma {:induction false} RunsRelated(kind: Kind, n: nat, events: seq<KeyEvent>)
    ensures Related(KeysAfter(n, events), kind, TonesAfter(kind, false, n, events), TonesAfter(kind, true, n, events))
  {
    hide Related, Changed;
    if events == [] {
      StartRelated(kind, n);
    } else {
      var before := events[..|events| - 1];
      var e := events[|events| - 1];
      RunsRelated(kind, n, before);
      var was := KeysAfter(n, before);
      if e.note < n && was[e.note] != e.velocity {
        if e.velocity > 0 {
          AttackRelated(was, kind, e.note, e.velocity, TonesAfter(kind, false, n, before),
            TonesAfter(kind, true, n, before));
        } else {
          ReleaseRelated(was, kind, e.note, TonesAfter(kind, false, n, before), TonesAfter(kind, true, n, before));
        }
      } else if e.note < n {
        assert was[e.note := e.velocity] == was;
      }
    }
  }

  lemma StartRelated(kind: Kind, n: nat)
    ensures Related(seq(n, _ => 0), kind, Tones(-1, -1), Tones(-1, -1))
  {
  }

  // The new behaviour misses no note that the old one couples: after any sequence of key
  // changes, a key coupled by the old algorithm is coupled by the new one too, and it is the
  // best pressed key.
  lemma NewMissesLess(kind: Kind, n: nat, events: seq<KeyEvent>)
    ensures var older, newer := TonesAfter(kind, false, n, events).current, TonesAfter(kind, true, n, events).current;
            && (older != -1 ==> newer == older)
            && (newer != -1 ==> newer == Next(KeysAfter(n, events), kind, -1))
  {
    RunsRelated(kind, n, events);
  }

  // Three keys are pressed from the lowest up and the lowest is released: the old algorithm
  // falls silent, the new one goes on with the next key.
  lemma OldMissesMore()
    ensures var events := [KeyEvent(0, 9), KeyEvent(1, 9), KeyEvent(2, 9), KeyEvent(0, 0)];
            TonesAfter(Bass, false, 3, events).current == -1 && TonesAfter(Bass, true, 3, events).current == 1
  {
    var e1 := [KeyEvent(0, 9)];
    var e2 := [KeyEvent(0, 9), KeyEvent(1, 9)];
    var e3 := [KeyEvent(0, 9), KeyEvent(1, 9), KeyEvent(2, 9)];
    var e4 := [KeyEvent(0, 9), KeyEvent(1, 9), KeyEvent(2, 9), KeyEvent(0, 0)];
    assert e1[..0] == [] && e2[..1] == e1 && e3[..2] == e2 && e4[..3] == e3;
    assert KeysAfter(3, []) == [0, 0, 0];
    assert KeysAfter(3, e1) == [9, 0, 0];
    assert KeysAfter(3, e2) == [9, 9, 0];
    assert KeysAfter(3, e3) == [9, 9, 9];
    assert KeysAfter(3, e4) == [0, 9, 9];
    assert TonesAfter(Bass, false, 3, e1) == Tones(0, 0) && TonesAfter(Bass, true, 3, e1) == Tones(0, 0);
    assert TonesAfter(Bass, false, 3, e2) == Tones(0, 1) && TonesAfter(Bass, true, 3, e2) == Tones(0, 1);
    assert TonesAfter(Bass, false, 3, e3) == Tones(0, 2) && TonesAfter(Bass, true, 3, e3) == Tones(0, 1);
  }
}
