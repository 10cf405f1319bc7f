// Manuals and couplers as objects that call each other: a key that changes on a manual is
// passed to its couplers, a coupler that changes passes it on to its destination manual,
// and so on around any loop until nothing changes any more.
module CouplerOrgan {
  import opened Arithmetic
  import opened CouplerNet
  import opened CouplerCascade
  import opened CouplerQuiet
  import opened CouplerRuns

  class OrganModel {
    const layout: Layout
    const manuals: seq<Manual>
    const couplers: seq<Coupler>
    // everything the manuals and couplers store
    ghost var net: Net

    ghost predicate Valid()
      reads this, manuals, couplers
    {
      && net.layout == layout
      && |manuals| == |layout.manuals|
      && |couplers| == |layout.defs|
      && Shape(net)
      && (forall m :: 0 <= m < |manuals| ==> manuals[m].number == m && manuals[m].Stores(net))
      && (forall c :: 0 <= c < |couplers| ==> couplers[c].number == c && couplers[c].Stores(net))
    }

    static method NewManuals(l: Layout) returns (ms: seq<Manual>)
      ensures |ms| == |l.manuals|
      ensures forall m :: 0 <= m < |ms| ==> fresh(ms[m]) && ms[m].number == m && ms[m].HoldsZeros(l.manuals[m])
    {
      ms := [];
      while |ms| < |l.manuals|
        invariant |ms| <= |l.manuals|
        invariant forall m :: 0 <= m < |ms| ==> fresh(ms[m]) && ms[m].number == m && ms[m].HoldsZeros(l.manuals[m])
      {
        var m := new Manual(|ms|, l.manuals[|ms|]);
        ms := ms + [m];
      }
    }

    static method NewCouplers(l: Layout, flags: seq<Flags>, engaged: seq<bool>) returns (cs: seq<Coupler>)
      requires |flags| == |engaged| == |l.defs|
      ensures |cs| == |l.defs|
      ensures forall c :: 0 <= c < |cs| ==>
                fresh(cs[c]) && cs[c].number == c && cs[c].flags == flags[c] && cs[c].engaged == engaged[c]
                && cs[c].HoldsZeros(l, l.defs[c])
    {
      cs := [];
      while |cs| < |l.defs|
        invariant |cs| <= |l.defs|
        invariant forall c :: 0 <= c < |cs| ==>
                    fresh(cs[c]) && cs[c].number == c && cs[c].flags == flags[c] && cs[c].engaged == engaged[c]
                    && cs[c].HoldsZeros(l, l.defs[c])
      {
        var c := new Coupler(|cs|, l, flags[|cs|], engaged[|cs|]);
        cs := cs + [c];
      }
    }

    // Everything loaded, nothing prepared: the drawstops and settings are given, and every
    // vector has its size.
    constructor (l: Layout, flags: seq<Flags>, engaged: seq<bool>)
      requires Wired(l) && |flags| == |engaged| == |l.defs|
      ensures Valid() && layout == l && net.flags == flags && net.engaged == engaged
    {
      var ms := NewManuals(l);
      var cs := NewCouplers(l, flags, engaged);
      ZeroShape(l, flags, engaged);
      hide Shape;
      layout := l;
      manuals := ms;
      couplers := cs;
      net := ZeroNet(l, flags, engaged);
    }

    // All keys up, all couplers at rest; the engaged unison-off couplers are counted.
    method PreparePlayback()
      requires Valid()
      modifies this, manuals, couplers
      ensures Valid() && Quiescent(net) && NoKeyHeld(InputsOf(net))
      ensures net.layout == old(net).layout && net.engaged == old(net).engaged && net.flags == old(net).flags
    {
      hide Wired, CouplerShape, ManualShape;
      var m := 0;
      while m < |manuals|
        invariant 0 <= m <= |manuals|
        invariant Valid() && net.engaged == old(net).engaged && net.flags == old(net).flags
        invariant forall i: nat :: i < m ==> SilentManual(net, i) && net.unison[i] == 0
      {
        ghost var before := net;
        manuals[m].PreparePlayback(this);
        OtherManualsKept(before, net, m);
        m := m + 1;
      }
      var c := 0;
      NoneBelow(net);
      while c < |couplers|
        invariant 0 <= c <= |couplers|
        invariant Valid() && net.engaged == old(net).engaged && net.flags == old(net).flags
        invariant forall i: nat :: i < |manuals| ==> SilentManual(net, i) && net.unison[i] == |EngagedBelow(net, i, c)|
        invariant forall i: nat :: i < c ==> SilentCoupler(net, i)
      {
        ghost var before := net;
        FewBelow(net, c);
        couplers[c].PreparePlayback(this);
        CouplerPrepared(before, net, c);
        c := c + 1;
      }
      AllCounted(net);
      SilenceSettled(net);
      NobodyHeld(net);
    }

    // The couple-through button of one coupler.
    method SetCoupleThrough(c: nat, on: bool)
      requires Valid() && Resting(net) && c < |layout.defs|
      modifies this, manuals, couplers
      ensures Valid() && EventDone(old(net), CoupleThrough(c, on), net)
      // a settled network stays so exactly if the coupler is not a unison-off coupler
      ensures Quiescent(old(net)) ==> (Quiescent(net) <==> !layout.defs[c].unisonOff)
    {
      hide Quiescent, Resting, Wired, CouplerShape, ManualShape, AfterUnison, DivisionsKept, EventDone;
      RestingShape(net);
      ghost var before := net;
      couplers[c].SetRecursive(this, on);
      ghost var flagged := net;
      if layout.defs[c].unisonOff {
        UnisonFlagsIrrelevant(before, c, on);
        UnisonSource(flagged, c);
        couplers[c].RefreshState(this, before, on);
        RefreshIsDone(before, c, on);
        if Quiescent(before) {
          RefreshMiscounts(flagged, c);
        }
      } else {
        couplers[c].RefreshState(this, before, on);
        ThroughIsDone(before, c, on, net);
      }
    }

    // The couple-through button of a set of couplers, one after the other.
    method ButtonStateChanged(members: seq<nat>, newState: bool)
      requires Valid() && Resting(net) && forall j :: 0 <= j < |members| ==> members[j] < |layout.defs|
      modifies this, manuals, couplers
      ensures Valid() && AllPossible(layout, Presses(members, newState))
              && RunDone(old(net), Presses(members, newState), net)
      ensures |net.flags| == |old(net).flags|
      ensures forall c :: 0 <= c < |net.flags| ==>
              net.flags[c] == if c in members then AllFlags(newState) else old(net).flags[c]
    {
      hide Quiescent, Resting, Wired, CouplerShape, ManualShape, EventDone, RunDone;
      assert members[..0] == [];
      NothingDone(net);
      for i := 0 to |members|
        invariant Valid() && Resting(net) && |net.flags| == |old(net).flags|
        invariant AllPossible(layout, Presses(members[..i], newState))
                  && RunDone(old(net), Presses(members[..i], newState), net)
        invariant forall c :: 0 <= c < |net.flags| ==>
                  net.flags[c] == if c in members[..i] then AllFlags(newState) else old(net).flags[c]
      {
        ghost var before := net;
        assert members[..i + 1] == members[..i] + [members[i]];
        ghost var es := Presses(members[..i + 1], newState);
        assert es[..i] == Presses(members[..i], newState) && es[i] == CoupleThrough(members[i], newState);
        SetCoupleThrough(members[i], newState);
        EventFlags(before, members[i], newState, net);
        OneMoreDone(old(net), es, before, net);
      }
      assert members[..|members|] == members;
    }

    method Apply(e: Event)
      requires Valid() && Resting(net) && Possible(layout, e)
      modifies this, manuals, couplers
      ensures Valid() && EventDone(old(net), e, net)
    {
      hide Quiescent, Resting, Wired, CouplerShape, ManualShape, EventDone, DivisionsKept;
      ghost var before := net;
      match e {
        case Note(m, midiNote, v) =>
          manuals[m].SetMidiNoteState(this, midiNote, v);
          KeyIsDone(before, e, net);
        case AllNotesOff(m) =>
          manuals[m].AllNotesOff(this);
          KeyIsDone(before, e, net);
        case Switch(c, on) => couplers[c].SetResultState(this, on);
        case CoupleThrough(c, on) => SetCoupleThrough(c, on);
      }
    }

    // Any run of events.  Its end is at rest with the inputs that the run left: by
    // CouplerPaths.SlotsHistoryIndependence these determine all but the counters and
    // divisions, for which see CouplerRuns.
    method Run(es: seq<Event>)
      requires Valid() && Resting(net) && AllPossible(layout, es)
      modifies this, manuals, couplers
      ensures Valid() && RunDone(old(net), es, net)
      ensures Quiescent(old(net)) && (forall j, m: nat :: 0 <= j < |es| ==> !Refreshes(layout, es[j], m)) ==>
              Quiescent(net)
    {
      hide Quiescent, Resting, Wired, CouplerShape, ManualShape, EventDone, RunDone, Shape;
      NothingDone(net);
      assert es[..0] == [];
      var i := 0;
      while i < |es|
        invariant 0 <= i <= |es|
        invariant Valid() && Resting(net)
        invariant RunDone(old(net), es[..i], net)
      {
        ghost var before := net;
        Apply(es[i]);
        assert es[..i + 1][..i] == es[..i];
        DoneRests(before, es[i], net);
        OneMoreDone(old(net), es[..i + 1], before, net);
        i := i + 1;
      }
      assert es[..|es|] == es;
      if Quiescent(old(net)) && forall j, m: nat :: 0 <= j < |es| ==> !Refreshes(layout, es[j], m) {
        RunWithoutRefresh(old(net), es, net);
      }
    }

    ghost predicate HasManual(m: Manual) {
      m.number < |manuals| && manuals[m.number] == m
    }

    ghost predicate HasCoupler(c: Coupler) {
      c.number < |couplers| && couplers[c.number] == c
    }
  }

  class Manual {
    const number: nat
    var keyVelocity: seq<nat>
    var velocitiesByCoupler: seq<seq<nat>>
    var velocity: seq<nat>
    var remoteVelocity: seq<nat>
    var divisionVelocity: seq<nat>
    var unisonOff: nat

    ghost predicate Stores(n: Net)
      reads this
    {
      && number < |n.held| && number < |n.slots| && number < |n.total|
      && number < |n.remote| && number < |n.division| && number < |n.unison|
      && keyVelocity == n.held[number]
      && velocitiesByCoupler == n.slots[number]
      && velocity == n.total[number]
      && remoteVelocity == n.remote[number]
      && divisionVelocity == n.division[number]
      && unisonOff == n.unison[number]
    }

    ghost predicate HoldsZeros(d: ManualDef)
      reads this
    {
      && keyVelocity == Zeros(d.accessible)
      && velocitiesByCoupler == ZeroRows(d)
      && velocity == Zeros(d.keys) && remoteVelocity == Zeros(d.keys) && divisionVelocity == Zeros(d.keys)
      && unisonOff == 0
    }

    constructor (n: nat, d: ManualDef)
      ensures number == n && HoldsZeros(d)
    {
      number := n;
      keyVelocity := Zeros(d.accessible);
      velocitiesByCoupler := ZeroRows(d);
      velocity := Zeros(d.keys);
      remoteVelocity := Zeros(d.keys);
      divisionVelocity := Zeros(d.keys);
      unisonOff := 0;
    }

    method PreparePlayback(o: OrganModel)
      requires o.Valid() && o.HasManual(this)
      modifies this, o`net
      ensures o.Valid()
      ensures number < |o.layout.manuals| && o.net == ZeroManual(old(o.net), number)
    {
      hide Wired, CouplerShape, ManualShape, Zeros, ZeroRows, Shape;
      var d := o.layout.manuals[number];
      ZeroManualShape(o.net, number);
      keyVelocity := Zeros(d.accessible);
      unisonOff := 0;
      velocity := Zeros(d.keys);
      divisionVelocity := Zeros(d.keys);
      remoteVelocity := Zeros(d.keys);
      velocitiesByCoupler := ZeroRows(d);
      ghost var n := ZeroManual(o.net, number);
      assert Stores(n);
      forall m | 0 <= m < |o.manuals| && m != number ensures o.manuals[m].Stores(n) {
        assert old(o.manuals[m].Stores(o.net));
      }
      forall c | 0 <= c < |o.couplers| ensures o.couplers[c].Stores(n) {
        assert old(o.couplers[c].Stores(o.net));
      }
      hide ZeroManual;
      o.net := n;
    }

    // The stops of the manual get the velocity without the two bits that count hops.
    method SetDivisionKeyState(o: OrganModel, key: nat, vel: nat)
      requires o.Valid() && o.HasManual(this)
      modifies this`divisionVelocity, o`net
      ensures o.Valid() && ManualShape(old(o.net), number)
      ensures o.net == if IsKey(old(o.net).layout, number, key) then StoreDivision(old(o.net), number, key, vel / 4)
              else old(o.net)
    {
      assert ManualShape(o.net, number);
      if key >= |divisionVelocity| {
        return;
      }
      var v := vel / 4;
      if divisionVelocity[key] == v {
        assert o.net.division[number] == o.net.division[number][key := v];
        assert o.net.division == Put(o.net.division, number, key, v);
        return;
      }
      divisionVelocity := divisionVelocity[key := v];
      o.net := StoreDivision(o.net, number, key, v);
      DivisionShape(old(o.net), o.net);
    }

    // The two maxima over the slots of a key: with and without the keyboard's own slot.
    static method Maxima(row: seq<nat>) returns (all: nat, others: nat)
      requires |row| > 0
      ensures all == MaxRange(row, 0, |row|) && others == MaxRange(row, 1, |row|)
    {
      all := row[0];
      others := 0;
      var i := 1;
      while i < |row|
        invariant 1 <= i <= |row|
        invariant all == MaxRange(row, 0, i) && others == MaxRange(row, 1, i)
      {
        if all < row[i] {
          all := row[i];
        }
        if others < row[i] {
          others := row[i];
        }
        i := i + 1;
      }
    }

    // Stores one slot and recomputes the two maxima over the slots of the key.
    method StoreKeyState(o: OrganModel, key: nat, vel: nat, couplerID: nat)
      requires o.Valid() && o.HasManual(this) && IsKey(o.layout, number, key)
      requires couplerID <= |o.layout.manuals[number].inputs|
      modifies this`velocitiesByCoupler, this`velocity, this`remoteVelocity, o`net
      ensures o.Valid()
      ensures ManualShape(old(o.net), number) && o.net == StoreSlot(old(o.net), number, key, couplerID, vel)
    {
      hide Wired, CouplerShape, Shape;
      StoreSlotShape(o.net, number, key, couplerID, vel);
      var row: seq<nat> := velocitiesByCoupler[key][couplerID := vel];
      var all, others := Maxima(row);
      velocitiesByCoupler := velocitiesByCoupler[key := row];
      velocity := velocity[key := all];
      remoteVelocity := remoteVelocity[key := others];
      o.net := StoreSlot(o.net, number, key, couplerID, vel);
    }

    method PropagateKeyToCouplers(o: OrganModel, key: nat, ghost up: bool, ghost bound: nat)
      requires o.Valid() && o.HasManual(this) && Running(o.net, up, bound)
      modifies o, o.manuals, o.couplers
      ensures o.Valid() && Running(o.net, up, bound)
      ensures Step(old(o.net), o.net, up, bound) && SameKeyboardSlots(old(o.net), o.net)
      ensures forall c: nat :: c < |o.layout.defs| && o.layout.defs[c].src == number ==> Clean(o.net, c, key)
      decreases Measure(o.net.slots, up, bound), 4
    {
      hide Running, Step, SameKeyboardSlots, Wired, CouplerShape, Clean, WiredCoupler, Shape;
      AboutManual(o.net, number);
      CascadeReflexive(o.net, up, bound);
      if key < |velocity| {
        var i := 0;
        var mine := o.layout.manuals[number].couplers;
        while i < |mine|
          invariant 0 <= i <= |mine|
          invariant o.Valid() && Running(o.net, up, bound)
          invariant Step(old(o.net), o.net, up, bound) && SameKeyboardSlots(old(o.net), o.net)
          invariant forall a :: 0 <= a < i ==> Clean(o.net, mine[a], key)
        {
          AboutManual(o.net, number);
          ghost var before := o.net;
          StepMeasure(old(o.net), before, up, bound);
          assert o.HasCoupler(o.couplers[mine[i]]);
          o.couplers[mine[i]].SetKey(o, key, velocitiesByCoupler[key], up, bound);
          CascadeTransitive(old(o.net), before, o.net, up, bound);
          StepKeepsClean(before, o.net, up, bound);
          forall a | 0 <= a < i ensures Clean(o.net, mine[a], key) {
            assert Clean(before, mine[a], key);
          }
          i := i + 1;
        }
        forall c: nat | c < |o.layout.defs| && o.layout.defs[c].src == number
          ensures Clean(o.net, c, key)
        {
          OwnCoupler(o.net, c);
        }
      } else {
        NothingToHear(o.net, number, key);
      }
    }

    // The entry point of a cascade: slot `couplerID` of a key takes a new velocity.
    method SetKeyState(o: OrganModel, key: nat, vel: nat, couplerID: nat, ghost up: bool, ghost bound: nat)
      requires o.Valid() && o.HasManual(this)
      requires SlotPending(o.net, up, bound, number, key, couplerID, vel)
      modifies o, o.manuals, o.couplers
      ensures o.Valid() && Running(o.net, up, bound)
      ensures Step(old(o.net), o.net, up, bound)
      ensures forall m: nat, k: nat :: KeyboardSlot(o.net, m, k) ==
                if m == number && k == key && couplerID == 0 && IsKey(o.layout, m, k) then vel
                  else KeyboardSlot(old(o.net), m, k)
      decreases Measure(o.net.slots, up, bound), 0
    {
      hide Running, Step, SameKeyboardSlots, SlotPending, Wired, CouplerShape;
      AboutManual(o.net, number);
      PendingIndex(o.net, up, bound, number, key, couplerID, vel);
      if key >= |velocity| {
        NothingPending(o.net, up, bound, number, key, couplerID, vel);
        return;
      }
      if velocitiesByCoupler[key][couplerID] == vel {
        NothingPending(o.net, up, bound, number, key, couplerID, vel);
        return;
      }
      ghost var n0 := o.net;
      StoreSlotRunning(o.net, up, bound, number, key, couplerID, vel);
      StoreSlotKeeps(o.net, up, bound, number, key, couplerID, vel);
      StoreKeyState(o, key, vel, couplerID);
      ghost var n1 := o.net;
      PropagateKeyToCouplers(o, key, up, bound);
      ghost var n2 := o.net;
      AboutManual(o.net, number);
      StoreDivisionKeeps(o.net, up, bound, number, key);
      SetDivisionKeyState(o, key, if unisonOff > 0 then remoteVelocity[key] else velocity[key]);
      SameKeyboards(n1, n2);
      SameKeyboards(n2, o.net);
      SlotCascade(n0, n1, n2, o.net, up, bound, number, key);
    }

    method StoreHeldVelocity(o: OrganModel, a: nat, vel: nat)
      requires o.Valid() && o.HasManual(this) && a < |keyVelocity|
      modifies this`keyVelocity, o`net
      ensures o.Valid()
      ensures number < |old(o.net).held| && a < |old(o.net).held[number]|
              && o.net == StoreHeld(old(o.net), number, a, vel)
    {
      hide Wired, CouplerShape;
      AboutManual(o.net, number);
      keyVelocity := keyVelocity[a := vel];
      o.net := StoreHeld(o.net, number, a, vel);
      HeldShape(old(o.net), o.net);
    }

    // A key of the keyboard is pressed, released (velocity 0) or struck again.
    method SetMidiNoteState(o: OrganModel, midiNote: nat, vel: nat)
      requires o.Valid() && o.HasManual(this) && Resting(o.net)
      modifies o, o.manuals, o.couplers
      ensures o.Valid() && Resting(o.net)
      ensures InputsOf(o.net) == AfterNote(old(o.net).layout, InputsOf(old(o.net)), number, midiNote, vel)
      ensures DivisionsKept(old(o.net), o.net) && (vel == 0 ==> SlotsMove(old(o.net), o.net, false))
    {
      hide Running, Step, SlotPending, Wired, CouplerShape, Resting;
      RestingShape(o.net);
      AboutManual(o.net, number);
      var def := o.layout.manuals[number];
      SameRowsKept(o.net, o.net, false);
      if midiNote < def.firstMidi || midiNote >= def.firstMidi + |keyVelocity| {
        return;
      }
      var a := midiNote - def.firstMidi;
      if keyVelocity[a] == vel {
        assert o.net.held == Put(o.net.held, number, a, vel) by {
          assert o.net.held[number] == o.net.held[number][a := vel];
        }
        return;
      }
      ghost var n0 := o.net;
      StoreHeldVelocity(o, a, vel);
      ghost var n1 := o.net;
      var key := a + def.firstLogical - 1;
      ghost var bound := Measure(n0.slots, false, 0) + Encode(vel);
      ghost var up := KeyGoesUp(n0, number, key, vel);
      KeyStarts(n0, number, a, vel, bound);
      SetKeyState(o, key, Encode(vel), 0, up, bound);
      StepKeeps(n1, o.net, up, bound);
      KeySettles(n0, number, a, vel, o.net, up, bound);
    }

    method AllNotesOff(o: OrganModel)
      requires o.Valid() && o.HasManual(this) && Resting(o.net)
      modifies o, o.manuals, o.couplers
      ensures o.Valid() && Resting(o.net)
      ensures InputsOf(o.net) == AfterRelease(old(o.net).layout, InputsOf(old(o.net)), number)
      ensures DivisionsKept(old(o.net), o.net)
    {
      hide Resting, Wired, CouplerShape, DivisionsKept, SlotsMove;
      RestingShape(o.net);
      AboutManual(o.net, number);
      SameRowsKept(o.net, o.net, false);
      var def := o.layout.manuals[number];
      var j := 0;
      while j < def.accessible
        invariant 0 <= j <= def.accessible
        invariant o.Valid() && Resting(o.net)
        invariant InputsOf(o.net) == AfterReleases(o.layout, InputsOf(old(o.net)), number, j)
        invariant DivisionsKept(old(o.net), o.net) && SlotsMove(old(o.net), o.net, false)
      {
        ghost var before := o.net;
        SetMidiNoteState(o, def.firstMidi + j, 0);
        KeptTwice(old(o.net), before, o.net, false);
        j := j + 1;
      }
    }

    // Counts one more or one fewer unison-off coupler; the counter is a 32-bit unsigned.
    method SetUnisonOff(o: OrganModel, on: bool)
      requires o.Valid() && o.HasManual(this) && unisonOff < WORD
      modifies this`unisonOff, this`divisionVelocity, o`net
      ensures o.Valid()
      ensures o.net == AfterUnison(old(o.net), number, on)
    {
      hide Wired, CouplerShape;
      AboutManual(o.net, number);
      ghost var n0 := o.net;
      var was := unisonOff;
      unisonOff := if on then (unisonOff + 1) % WORD else (unisonOff + WORD - 1) % WORD;
      o.net := o.net.(unison := o.net.unison[number := unisonOff]);
      UnisonStored(n0, o.net);
      if on {
        if was != 0 {
          return;
        }
      } else {
        if unisonOff != 0 {
          return;
        }
      }
      AboutManual(o.net, number);
      SendDivision(o, on);
      UnisonDivision(n0, number, on);
    }

    // The loops of SetUnisonOff: every key of the division gets its new state.
    method SendDivision(o: OrganModel, on: bool)
      requires o.Valid() && o.HasManual(this)
      modifies this`divisionVelocity, o`net
      ensures o.Valid() && o.net == old(o.net).(division := o.net.division)
      ensures |old(o.net).division[number]| == |velocity| == |remoteVelocity|
      ensures o.net.division == old(o.net).division[number := Divided(if on then remoteVelocity else velocity)]
    {
      hide Wired, CouplerShape;
      ghost var n1 := o.net;
      AboutManual(n1, number);
      var note := 0;
      while note < |velocity|
        invariant 0 <= note <= |velocity|
        invariant o.Valid() && o.net == n1.(division := o.net.division) && |o.net.division| == |n1.division|
        invariant forall m :: 0 <= m < |n1.division| && m != number ==> o.net.division[m] == n1.division[m]
        invariant |o.net.division[number]| == |velocity| == |remoteVelocity|
        invariant forall k :: 0 <= k < note ==>
                  o.net.division[number][k] == (if on then remoteVelocity[k] else velocity[k]) / 4
      {
        AboutManual(o.net, number);
        SetDivisionKeyState(o, note, if on then remoteVelocity[note] else velocity[note]);
        note := note + 1;
      }
      AboutManual(o.net, number);
      assert o.net.division[number] == Divided(if on then remoteVelocity else velocity);
      assert o.net.division == n1.division[number := Divided(if on then remoteVelocity else velocity)];
    }
  }

  class Coupler {
    const number: nat
    var flags: Flags
    var engaged: bool
    var keyVelocity: seq<nat>
    var internalVelocity: seq<nat>
    var outVelocity: seq<nat>

    ghost predicate Stores(n: Net)
      reads this
    {
      && number < |n.flags| && number < |n.engaged| && number < |n.keyVel|
      && number < |n.internalVel| && number < |n.outVel|
      && flags == n.flags[number]
      && engaged == n.engaged[number]
      && keyVelocity == n.keyVel[number]
      && internalVelocity == n.internalVel[number]
      && outVelocity == n.outVel[number]
    }

    ghost predicate HoldsZeros(l: Layout, d: CouplerDef)
      reads this
    {
      && keyVelocity == Zeros(Keys(l, d.src))
      && internalVelocity == Zeros(if d.unisonOff then 0 else Keys(l, d.dest))
      && outVelocity == Zeros(if d.unisonOff then 0 else Keys(l, d.dest))
    }

    constructor (n: nat, l: Layout, f: Flags, on: bool)
      requires n < |l.defs|
      ensures number == n && flags == f && engaged == on && HoldsZeros(l, l.defs[n])
    {
      var d := l.defs[n];
      number := n;
      flags := f;
      engaged := on;
      keyVelocity := Zeros(Keys(l, d.src));
      internalVelocity := Zeros(if d.unisonOff then 0 else Keys(l, d.dest));
      outVelocity := Zeros(if d.unisonOff then 0 else Keys(l, d.dest));
    }

    method PreparePlayback(o: OrganModel)
      requires o.Valid() && o.HasCoupler(this)
      requires forall m: nat :: m < |o.manuals| ==> o.manuals[m].unisonOff < WORD
      modifies this, o.manuals, o`net
      ensures o.Valid()
      ensures number < |o.layout.defs| && Shape(ZeroCoupler(old(o.net), number))
      ensures var a, d := ZeroCoupler(old(o.net), number), o.layout.defs[number];
              o.net == if d.unisonOff && engaged && IsManual(a.layout, d.src) then AfterUnison(a, d.src, true) else a
    {
      hide Wired, CouplerShape, ManualShape;
      AboutCoupler(o.net, number);
      var d := o.layout.defs[number];
      keyVelocity := Zeros(Keys(o.layout, d.src));
      internalVelocity := Zeros(if d.unisonOff then 0 else Keys(o.layout, d.dest));
      outVelocity := Zeros(if d.unisonOff then 0 else Keys(o.layout, d.dest));
      ZeroCouplerShape(o.net, number);
      o.net := ZeroCoupler(o.net, number);
      if d.unisonOff && engaged {
        o.manuals[d.src].SetUnisonOff(o, true);
      }
    }

    method StoreKeyVelocity(o: OrganModel, note: nat, vel: nat)
      requires o.Valid() && o.HasCoupler(this) && IsInput(o.layout, number, note)
      modifies this`keyVelocity, o`net
      ensures o.Valid()
      ensures CouplerShape(old(o.net), number) && o.net == StoreKey(old(o.net), number, note, vel)
    {
      hide Wired, ManualShape;
      AboutCoupler(o.net, number);
      StoreKeyShape(o.net, number, note, vel);
      keyVelocity := keyVelocity[note := vel];
      o.net := StoreKey(o.net, number, note, vel);
    }

    method StoreInternalVelocity(o: OrganModel, note: nat, vel: nat)
      requires o.Valid() && o.HasCoupler(this) && IsOutput(o.layout, number, note)
      modifies this`internalVelocity, o`net
      ensures o.Valid()
      ensures CouplerShape(old(o.net), number) && o.net == StoreInternal(old(o.net), number, note, vel)
    {
      hide Wired, ManualShape;
      AboutCoupler(o.net, number);
      StoreInternalShape(o.net, number, note, vel);
      internalVelocity := internalVelocity[note := vel];
      o.net := StoreInternal(o.net, number, note, vel);
    }

    method StoreOutVelocity(o: OrganModel, note: nat, vel: nat)
      requires o.Valid() && o.HasCoupler(this) && IsOutput(o.layout, number, note)
      modifies this`outVelocity, o`net
      ensures o.Valid()
      ensures CouplerShape(old(o.net), number) && o.net == StoreOut(old(o.net), number, note, vel)
    {
      hide Wired, ManualShape;
      AboutCoupler(o.net, number);
      StoreOutShape(o.net, number, note, vel);
      outVelocity := outVelocity[note := vel];
      o.net := StoreOut(o.net, number, note, vel);
    }

    method SetOut(o: OrganModel, noteNumber: int, vel: nat, ghost up: bool, ghost bound: nat)
      requires o.Valid() && o.HasCoupler(this) && !o.layout.defs[number].unisonOff
      requires var k := noteNumber - o.layout.defs[number].keyshift;
               && k >= 0 && IsInput(o.layout, number, k)
               && CouplerShape(o.net, number) && o.net.keyVel[number][k] == vel
               && Running(Completed(o.net, number, k), up, bound)
      modifies o, o.manuals, o.couplers
      ensures o.Valid() && Running(o.net, up, bound)
      ensures Step(old(o.net), o.net, up, bound) && SameKeyboardSlots(old(o.net), o.net)
      decreases Measure(o.net.slots, up, bound), 1
    {
      hide Running, Step, SameKeyboardSlots, SlotPending, Wired, ManualShape;
      ghost var n0 := o.net;
      ghost var k: nat := noteNumber - o.layout.defs[number].keyshift;
      CascadeReflexive(n0, up, bound);
      AboutCoupler(n0, number);
      if noteNumber < 0 {
        return;
      }
      var note: nat := noteNumber;
      if note >= |internalVelocity| {
        return;
      }
      if internalVelocity[note] == vel {
        SameInternal(n0, number, k);
        return;
      }
      StoreInternalVelocity(o, note, vel);
      assert o.net == Completed(n0, number, k);
      if !engaged {
        NoteInternal(n0, up, bound, number, k);
        return;
      }
      SendPending(n0, up, bound, number, k);
      var newState := internalVelocity[note];
      if newState > 0 {
        newState := newState - 1;
      }
      StoreOutVelocity(o, note, newState);
      ghost var n1 := o.net;
      StepMeasure(n0, n1, up, bound);
      var dest := o.manuals[o.layout.defs[number].dest];
      dest.SetKeyState(o, note, outVelocity[note], o.layout.defs[number].index, up, bound);
      NotKeyboard(n1, o.net);
      CascadeTransitive(n0, n1, o.net, up, bound);
    }

    // For a normal coupler; a unison-off coupler passes nothing on.
    method ChangeKey(o: OrganModel, note: nat, vel: nat, ghost up: bool, ghost bound: nat)
      requires o.Valid() && o.HasCoupler(this) && IsInput(o.layout, number, note)
      requires CouplerShape(o.net, number) && o.net.keyVel[number][note] == vel
      requires Running(Completed(o.net, number, note), up, bound)
      modifies o, o.manuals, o.couplers
      ensures o.Valid() && Running(o.net, up, bound)
      ensures Step(old(o.net), o.net, up, bound) && SameKeyboardSlots(old(o.net), o.net)
      decreases Measure(o.net.slots, up, bound), 2
    {
      if o.layout.defs[number].unisonOff {
        return;
      }
      SetOut(o, note + o.layout.defs[number].keyshift, vel, up, bound);
    }

    // The largest velocity among those slots of a key that this coupler may listen to.
    method LargestPermitted(o: OrganModel, velocities: seq<nat>) returns (vel: nat)
      requires o.Valid() && o.HasCoupler(this) && WiredCoupler(o.layout, number)
      requires |velocities| == 1 + |o.layout.manuals[o.layout.defs[number].src].inputs|
      ensures vel == MaxPermitted(o.layout, o.net.flags, number, velocities, |velocities|)
    {
      hide CouplerShape, ManualShape;
      var def := o.layout.defs[number];
      var inputs := o.layout.manuals[def.src].inputs;
      assert WiredManual(o.layout, def.src);
      vel := 0;
      var i := 0;
      while i < |velocities|
        invariant 0 <= i <= |velocities|
        invariant vel == MaxPermitted(o.layout, o.net.flags, number, velocities, i)
      {
        var skip := false;
        if i > 0 {
          var prev := o.couplers[inputs[i - 1]];
          if
            || (prev.flags.unisonInter && def.destKeyshift == 0)
            || (prev.flags.downIntra && def.destKeyshift < 0 && !def.IsIntermanual())
            || (prev.flags.upIntra && def.destKeyshift > 0 && !def.IsIntermanual())
            || (prev.flags.downInter && def.destKeyshift < 0 && def.IsIntermanual())
            || (prev.flags.upInter && def.destKeyshift > 0 && def.IsIntermanual())
          {
          } else {
            skip := true;
          }
        }
        if !skip && velocities[i] > vel {
          vel := velocities[i];
        }
        i := i + 1;
      }
    }

    // A key of the source manual has changed: take over what may be heard of it.
    method SetKey(o: OrganModel, note: nat, velocities: seq<nat>, ghost up: bool, ghost bound: nat)
      requires o.Valid() && o.HasCoupler(this) && Running(o.net, up, bound)
      requires IsInput(o.layout, number, note) ==>
                 ManualShape(o.net, o.layout.defs[number].src)
                   && velocities == o.net.slots[o.layout.defs[number].src][note]
      modifies o, o.manuals, o.couplers
      ensures o.Valid() && Running(o.net, up, bound)
      ensures Step(old(o.net), o.net, up, bound) && SameKeyboardSlots(old(o.net), o.net)
      ensures Clean(o.net, number, note)
      decreases Measure(o.net.slots, up, bound), 3
    {
      hide Running, Step, SameKeyboardSlots, Wired;
      var def := o.layout.defs[number];
      CascadeReflexive(o.net, up, bound);
      AboutCoupler(o.net, number);
      if note >= |keyVelocity| {
        return;
      }
      if note < def.firstKey || note >= def.firstKey + def.numKeys {
        return;
      }
      var vel := LargestPermitted(o, velocities);
      if keyVelocity[note] == vel {
        return;
      }
      ghost var n0 := o.net;
      TakeOver(n0, up, bound, number, note);
      StoreKeyVelocity(o, note, vel);
      ghost var n1 := o.net;
      StepMeasure(n0, n1, up, bound);
      ChangeKey(o, note, vel, up, bound);
      CascadeTransitive(n0, n1, o.net, up, bound);
      StepKeepsClean(n1, o.net, up, bound);
    }

    method StoreSwitch(o: OrganModel, on: bool)
      requires o.Valid() && o.HasCoupler(this)
      modifies this`engaged, o`net
      ensures o.Valid()
      ensures number < |old(o.net).engaged| && o.net == StoreEngaged(old(o.net), number, on)
    {
      hide Wired, ManualShape;
      EngagedShape(o.net, number, on);
      engaged := on;
      o.net := StoreEngaged(o.net, number, on);
    }

    // The drawstop of the coupler is thrown: it is displayed first, then the coupler acts.
    method SetResultState(o: OrganModel, on: bool)
      requires o.Valid() && o.HasCoupler(this) && Resting(o.net)
      modifies o, o.manuals, o.couplers
      ensures o.Valid() && number < |o.layout.defs| && EventDone(old(o.net), Switch(number, on), o.net)
    {
      hide Resting, Running, Step, SameKeyboardSlots, Wired, ManualShape, CounterSync, HeldSync, DivClean, EventDone,
        DivisionsKept;
      RestingShape(o.net);
      AboutCoupler(o.net, number);
      ghost var n0 := o.net;
      if engaged != on {
        if !o.layout.defs[number].unisonOff {
          SwitchStarts(n0, number, on, Measure(n0.slots, false, 0));
        }
        StoreSwitch(o, on);
        OnDrawstopStateChanged(o, on, n0);
      } else {
        assert o.net.engaged == o.net.engaged[number := on];
        SameRowsKept(n0, n0, on);
      }
      if o.layout.defs[number].unisonOff && n0.engaged[number] != on {
        ThrowIsDone(n0, number, on);
      } else {
        SwitchIsDone(n0, number, on, o.net);
      }
    }

    // Sends on (or takes back) everything the coupler has noted while it was off (or on).
    method OnDrawstopStateChanged(o: OrganModel, on: bool, ghost before: Net)
      requires o.Valid() && o.HasCoupler(this) && Resting(before)
      requires number < |before.engaged| && before.engaged[number] != on
      requires o.net == StoreEngaged(before, number, on)
      modifies o, o.manuals, o.couplers
      ensures o.Valid() && Resting(o.net)
      ensures o.net.layout == before.layout && o.net.held == before.held
      ensures o.net.flags == before.flags && o.net.engaged == before.engaged[number := on]
      ensures !o.layout.defs[number].unisonOff ==> DivisionsKept(before, o.net)
      ensures o.layout.defs[number].unisonOff ==>
                IsManual(o.layout, o.layout.defs[number].src) &&
                o.net == AfterUnison(StoreEngaged(before, number, on), o.layout.defs[number].src, on)
    {
      hide Resting, Running, Step, SameKeyboardSlots, Wired, ManualShape, CounterSync, HeldSync, DivClean,
        DivisionsKept;
      RestingShape(before);
      AboutCoupler(o.net, number);
      if o.layout.defs[number].unisonOff {
        SwitchRests(before, number, on);
        UnisonRests(o.net, o.layout.defs[number].src, on);
        CounterSmall(o.net, o.layout.defs[number].src);
        o.manuals[o.layout.defs[number].src].SetUnisonOff(o, on);
      } else {
        ghost var bound := Measure(before.slots, false, 0);
        ghost var n1 := o.net;
        SwitchStarts(before, number, on, bound);
        SendAll(o, on, bound);
        StepKeeps(n1, o.net, on, bound);
        SwitchSettles(n1, o.net, number, on, bound);
        KeptTwice(before, n1, o.net, on);
      }
    }

    method SendAll(o: OrganModel, on: bool, ghost bound: nat)
      requires o.Valid() && o.HasCoupler(this) && !o.layout.defs[number].unisonOff && engaged == on
      requires Running(o.net, on, bound)
      modifies o, o.manuals, o.couplers
      ensures o.Valid() && Running(o.net, on, bound)
      ensures Step(old(o.net), o.net, on, bound) && SameKeyboardSlots(old(o.net), o.net)
      ensures forall j: nat :: OutClean(o.net, number, j)
    {
      hide Running, SlotPending, Step, SameKeyboardSlots, Wired, ManualShape;
      AboutCoupler(o.net, number);
      ghost var n1 := o.net;
      CascadeReflexive(n1, on, bound);
      var dest := o.manuals[o.layout.defs[number].dest];
      var i := 0;
      while i < |internalVelocity|
        invariant 0 <= i <= |internalVelocity| == o.layout.manuals[o.layout.defs[number].dest].keys
        invariant o.Valid() && Running(o.net, on, bound)
        invariant Step(n1, o.net, on, bound) && SameKeyboardSlots(n1, o.net)
        invariant forall j: nat :: j < i ==> OutClean(o.net, number, j)
      {
        StepKeepsOut(n1, o.net, on, bound);
        SendOne(o, dest, i, on, bound, n1);
        AboutCoupler(o.net, number);
        i := i + 1;
      }
    }

    method SendOne(o: OrganModel, dest: Manual, i: nat, on: bool, ghost bound: nat, ghost n1: Net)
      requires o.Valid() && o.HasCoupler(this) && engaged == on
      requires IsOutput(o.layout, number, i) && dest == o.manuals[o.layout.defs[number].dest]
      requires Shape(n1) && Running(o.net, on, bound) && Step(n1, o.net, on, bound) && SameKeyboardSlots(n1, o.net)
      modifies o, o.manuals, o.couplers
      ensures o.Valid() && Running(o.net, on, bound)
      ensures Step(n1, o.net, on, bound) && SameKeyboardSlots(n1, o.net)
      ensures OutClean(o.net, number, i)
      ensures forall j: nat :: OutClean(old(o.net), number, j) ==> OutClean(o.net, number, j)
    {
      hide Running, SlotPending, Step, SameKeyboardSlots, Wired, ManualShape;
      AboutCoupler(o.net, number);
      ghost var n2 := o.net;
      var newState := if on then internalVelocity[i] else 0;
      if newState > 0 {
        newState := newState - 1;
      }
      if outVelocity[i] != newState {
        StoreOutPending(n2, on, bound, number, i);
        StoreOutVelocity(o, i, newState);
        ghost var n3 := o.net;
        dest.SetKeyState(o, i, outVelocity[i], o.layout.defs[number].index, on, bound);
        StepKeepsOut(n2, n3, on, bound);
        StepKeepsOut(n3, o.net, on, bound);
        NotKeyboard(n3, o.net);
        CascadeTransitive(n2, n3, o.net, on, bound);
        CascadeTransitive(n1, n2, o.net, on, bound);
      }
    }

    method SetRecursive(o: OrganModel, on: bool)
      requires o.Valid() && o.HasCoupler(this)
      modifies this`flags, o`net
      ensures o.Valid()
      ensures number < |old(o.net).flags| && o.net == StoreFlags(old(o.net), number, AllFlags(on))
    {
      hide Wired, ManualShape;
      FlagsShape(o.net, number, AllFlags(on));
      flags := AllFlags(on);
      o.net := StoreFlags(o.net, number, AllFlags(on));
    }

    // Lets the couplers of the destination look again at every key this coupler drives.  The
    // couple-through button calls this after it has set the flags.
    method RefreshState(o: OrganModel, ghost before: Net, ghost on: bool)
      requires o.Valid() && o.HasCoupler(this) && Resting(before)
      requires number < |before.flags| && o.net == StoreFlags(before, number, AllFlags(on))
      modifies o, o.manuals, o.couplers
      ensures o.Valid()
      ensures !o.layout.defs[number].unisonOff ==>
              Resting(o.net) && DivisionsKept(before, o.net) && InputsOf(o.net) == InputsOf(old(o.net))
      ensures o.layout.defs[number].unisonOff ==>
                IsManual(o.layout, o.layout.defs[number].src) && number < |before.engaged| &&
                o.net == AfterUnison(old(o.net), o.layout.defs[number].src, before.engaged[number])
    {
      hide Resting, DivisionsKept, Running, Step, SameKeyboardSlots, Wired, ManualShape, CounterSync, HeldSync,
        DivClean, Clean;
      RestingShape(before);
      AboutCoupler(o.net, number);
      if o.layout.defs[number].unisonOff {
        CounterSmall(before, o.layout.defs[number].src);
        o.manuals[o.layout.defs[number].src].SetUnisonOff(o, engaged);
      } else {
        ghost var bound := Measure(before.slots, false, 0);
        ghost var n1 := o.net;
        ThroughStarts(before, number, on, bound);
        PropagateAll(o, before, on, bound);
        StepKeeps(n1, o.net, on, bound);
        AllHeard(n1, o.net, o.layout.defs[number].dest, on, bound, before.outVel[number]);
        ThroughSettles(n1, o.net, number, on, bound);
        KeptTwice(before, n1, o.net, on);
      }
    }

    method PropagateAll(o: OrganModel, ghost before: Net, ghost on: bool, ghost bound: nat)
      requires o.Valid() && o.HasCoupler(this) && Resting(before) && !o.layout.defs[number].unisonOff
      requires number < |before.flags| && o.net == StoreFlags(before, number, AllFlags(on))
      requires bound == Measure(before.slots, false, 0) && Running(o.net, on, bound)
      modifies o, o.manuals, o.couplers
      ensures o.Valid() && Running(o.net, on, bound)
      ensures Step(old(o.net), o.net, on, bound) && SameKeyboardSlots(old(o.net), o.net)
      ensures forall c: nat, k: nat ::
                c < |o.layout.defs| && o.layout.defs[c].src == o.layout.defs[number].dest && k < |outVelocity| ==>
                  Clean(o.net, c, k)
      ensures |outVelocity| == |old(outVelocity)|
    {
      hide Resting, Running, Step, SameKeyboardSlots, Wired, ManualShape, CounterSync, HeldSync, DivClean, Clean;
      AboutCoupler(o.net, number);
      ghost var n1 := o.net;
      CascadeReflexive(n1, on, bound);
      var i := 0;
      while i < |outVelocity|
        invariant 0 <= i <= |outVelocity| == |old(outVelocity)|
        invariant o.Valid() && Running(o.net, on, bound)
        invariant Step(n1, o.net, on, bound) && SameKeyboardSlots(n1, o.net)
        invariant forall c: nat, k: nat ::
                    c < |o.layout.defs| && o.layout.defs[c].src == o.layout.defs[number].dest && k < i ==>
                      Clean(o.net, c, k)
      {
        AboutCoupler(o.net, number);
        PropagateOne(o, before, n1, i, on, bound);
        AboutCoupler(o.net, number);
        i := i + 1;
      }
    }

    method PropagateOne(o: OrganModel, ghost before: Net, ghost n1: Net, i: nat, ghost on: bool, ghost bound: nat)
      requires o.Valid() && o.HasCoupler(this) && Resting(before) && IsOutput(o.layout, number, i) && i < |outVelocity|
      requires number < |before.flags| && n1 == StoreFlags(before, number, AllFlags(on)) && Shape(n1)
      requires bound == Measure(before.slots, false, 0) && Running(o.net, on, bound)
      requires Step(n1, o.net, on, bound) && SameKeyboardSlots(n1, o.net)
      modifies o, o.manuals, o.couplers
      ensures o.Valid() && Running(o.net, on, bound)
      ensures Step(n1, o.net, on, bound) && SameKeyboardSlots(n1, o.net)
      ensures forall c: nat :: c < |o.layout.defs| && o.layout.defs[c].src == o.layout.defs[number].dest ==>
              Clean(o.net, c, i)
      ensures forall c: nat, k: nat :: Clean(old(o.net), c, k) ==> Clean(o.net, c, k)
    {
      hide Resting, Running, Step, SameKeyboardSlots, Wired, ManualShape, CounterSync, HeldSync, DivClean, Clean;
      ghost var n2 := o.net;
      StepKeeps(n1, n2, on, bound);
      AboutCoupler(n2, number);
      if outVelocity[i] != 0 {
        var dest := o.manuals[o.layout.defs[number].dest];
        dest.PropagateKeyToCouplers(o, i, on, bound);
        StepKeepsClean(n2, o.net, on, bound);
        CascadeTransitive(n1, n2, o.net, on, bound);
      } else {
        SilentKeyClean(before, n1, n2, number, on, bound, i);
      }
    }
  }

  // ---------- facts about values used above ----------

  function Zeros(size: nat): seq<nat> {
    seq(size, _ => 0)
  }

  function ZeroRows(d: ManualDef): seq<seq<nat>> {
    seq(d.keys, _ => Zeros(1 + |d.inputs|))
  }

  lemma ZeroRowsSilent(d: ManualDef)
    ensures AllSilent(ZeroRows(d))
  {
    var rows := ZeroRows(d);
    forall k: nat | k < |rows| ensures Silent(rows, k) {
      assert rows[k] == Zeros(1 + |d.inputs|);
    }
  }

  function Keys(l: Layout, m: nat): nat {
    if m < |l.manuals| then l.manuals[m].keys else 0
  }

  ghost function ZeroNet(l: Layout, flags: seq<Flags>, engaged: seq<bool>): Net {
    Net(l, flags, engaged,
        seq(|l.defs|, c requires 0 <= c < |l.defs| => Zeros(Keys(l, l.defs[c].src))),
        seq(|l.defs|, c requires 0 <= c < |l.defs| => Zeros(if l.defs[c].unisonOff then 0
          else Keys(l, l.defs[c].dest))),
        seq(|l.defs|, c requires 0 <= c < |l.defs| => Zeros(if l.defs[c].unisonOff then 0
          else Keys(l, l.defs[c].dest))),
        seq(|l.manuals|, m requires 0 <= m < |l.manuals| => Zeros(l.manuals[m].accessible)),
        seq(|l.manuals|, m requires 0 <= m < |l.manuals| => ZeroRows(l.manuals[m])),
        seq(|l.manuals|, m requires 0 <= m < |l.manuals| => Zeros(l.manuals[m].keys)),
        seq(|l.manuals|, m requires 0 <= m < |l.manuals| => Zeros(l.manuals[m].keys)),
        seq(|l.manuals|, m requires 0 <= m < |l.manuals| => Zeros(l.manuals[m].keys)),
        Zeros(|l.manuals|))
  }

  lemma ZeroShape(l: Layout, flags: seq<Flags>, engaged: seq<bool>)
    requires Wired(l) && |flags| == |engaged| == |l.defs|
    ensures Shape(ZeroNet(l, flags, engaged))
  {
    var n := ZeroNet(l, flags, engaged);
    forall c: nat ensures CouplerShape(n, c) {
      assert WiredCoupler(l, c);
    }
  }

  ghost function ZeroManual(n: Net, m: nat): Net
    requires Shape(n) && m < |n.layout.manuals|
  {
    var d := n.layout.manuals[m];
    n.(held := n.held[m := Zeros(d.accessible)],
       slots := n.slots[m := ZeroRows(d)],
       total := n.total[m := Zeros(d.keys)],
       remote := n.remote[m := Zeros(d.keys)],
       division := n.division[m := Zeros(d.keys)],
       unison := n.unison[m := 0])
  }

  lemma ZeroManualShape(n: Net, m: nat)
    requires Shape(n) && m < |n.layout.manuals|
    ensures Shape(ZeroManual(n, m))
  {
    var b := ZeroManual(n, m);
    forall i: nat ensures ManualShape(b, i) {
      assert ManualShape(n, i);
    }
    forall c: nat ensures CouplerShape(b, c) {
      assert CouplerShape(n, c);
    }
  }

  ghost function ZeroCoupler(n: Net, c: nat): Net
    requires Shape(n) && c < |n.layout.defs|
  {
    var d := n.layout.defs[c];
    n.(keyVel := n.keyVel[c := Zeros(Keys(n.layout, d.src))],
       internalVel := n.internalVel[c := Zeros(if d.unisonOff then 0 else Keys(n.layout, d.dest))],
       outVel := n.outVel[c := Zeros(if d.unisonOff then 0 else Keys(n.layout, d.dest))])
  }

  lemma ZeroCouplerShape(n: Net, c: nat)
    requires Shape(n) && c < |n.layout.defs|
    ensures Shape(ZeroCoupler(n, c))
  {
    var b := ZeroCoupler(n, c);
    assert WiredCoupler(n.layout, c);
    forall m: nat ensures ManualShape(b, m) {
      assert ManualShape(n, m);
    }
    forall i: nat ensures CouplerShape(b, i) {
      assert CouplerShape(n, i);
    }
  }

  lemma OtherManualsKept(a: Net, b: Net, m: nat)
    requires Shape(a) && Shape(b) && m < |a.layout.manuals| && b == ZeroManual(a, m)
    requires forall i: nat :: i < m ==> SilentManual(a, i) && a.unison[i] == 0
    ensures forall i: nat :: i <= m ==> SilentManual(b, i) && b.unison[i] == 0
  {
    forall i: nat | i <= m ensures SilentManual(b, i) && b.unison[i] == 0 {
      if i < m {
        SilentManualKept(a, b, i);
      } else {
        ZeroRowsSilent(a.layout.manuals[m]);
      }
    }
  }

  // A manual stays silent if its slots and maxima are left alone and its divisions are told
  // nothing but zeros.
  lemma SilentManualKept(a: Net, b: Net, i: nat)
    requires Shape(a) && Shape(b) && a.layout == b.layout && i < |a.layout.manuals| && SilentManual(a, i)
    requires a.held[i] == b.held[i] && a.slots[i] == b.slots[i] && a.total[i] == b.total[i]
             && a.remote[i] == b.remote[i]
    requires Silent(b.division, i)
    ensures SilentManual(b, i)
  {
  }

  lemma NoneBelow(n: Net)
    requires |n.engaged| == |n.layout.defs|
    ensures forall m: nat :: |EngagedBelow(n, m, 0)| == 0
  {
    forall m: nat ensures |EngagedBelow(n, m, 0)| == 0 {
      assert EngagedBelow(n, m, 0) == {};
    }
  }

  lemma FewBelow(n: Net, c: nat)
    requires Shape(n) && c < |n.layout.defs|
    ensures forall m: nat :: |EngagedBelow(n, m, c)| < WORD - 1
  {
    forall m: nat ensures |EngagedBelow(n, m, c)| < WORD - 1 {
      AtMostBelow(n, m, c);
    }
  }

  lemma CouplerPrepared(a: Net, b: Net, c: nat)
    requires Shape(a) && Shape(b) && c < |a.layout.defs| && Shape(ZeroCoupler(a, c))
    requires var z, d := ZeroCoupler(a, c), a.layout.defs[c];
             b == if d.unisonOff && a.engaged[c] && IsManual(z.layout, d.src) then AfterUnison(z, d.src, true) else z
    requires forall i: nat :: i < |a.layout.manuals| ==> SilentManual(a, i) && a.unison[i] == |EngagedBelow(a, i, c)|
    requires forall i: nat :: i < c ==> SilentCoupler(a, i)
    ensures forall i: nat :: i < |a.layout.manuals| ==> SilentManual(b, i) && b.unison[i] == |EngagedBelow(b, i, c + 1)|
    ensures forall i: nat :: i <= c ==> SilentCoupler(b, i)
  {
    AboutCoupler(a, c);
    forall i: nat | i <= c ensures SilentCoupler(b, i) {
      assert i == c || SilentCoupler(a, i);
    }
    forall i: nat | i < |a.layout.manuals|
      ensures SilentManual(b, i) && b.unison[i] == |EngagedBelow(b, i, c + 1)|
    {
      assert ManualShape(a, i);
      SilentManualKept(a, b, i);
      AtMostBelow(a, i, c);
      OneMoreBelow(a, i, c);
      assert EngagedBelow(b, i, c + 1) == EngagedBelow(a, i, c + 1);
    }
  }

  lemma AllCounted(n: Net)
    requires Shape(n)
    requires forall m: nat :: m < |n.layout.manuals| ==> n.unison[m] == |EngagedBelow(n, m, |n.layout.defs|)|
    ensures forall m: nat :: CounterSync(n, m)
  {
    forall m: nat ensures CounterSync(n, m) {
      assert EngagedBelow(n, m, |n.layout.defs|) == EngagedUnisonOff(n, m);
    }
  }

  lemma NobodyHeld(n: Net)
    requires Shape(n) && forall m: nat :: m < |n.layout.manuals| ==> SilentManual(n, m)
    ensures NoKeyHeld(InputsOf(n))
  {
    forall m, a | 0 <= m < |n.held| && 0 <= a < |n.held[m]| ensures n.held[m][a] == 0 {
      assert SilentManual(n, m);
    }
  }

  // Nothing listens to a unison-off coupler, so its flags do not matter.
  lemma UnisonFlagsIrrelevant(n: Net, c: nat, on: bool)
    requires Resting(n) && c < |n.layout.defs| && n.layout.defs[c].unisonOff
    ensures Resting(StoreFlags(n, c, AllFlags(on))) && DivisionsKept(n, StoreFlags(n, c, AllFlags(on)))
    ensures Quiescent(n) ==> Quiescent(StoreFlags(n, c, AllFlags(on)))
  {
    var b := StoreFlags(n, c, AllFlags(on));
    FlagsShape(n, c, AllFlags(on));
    SameRowsKept(n, b, on);
    forall i: nat, k: nat ensures Idle(b, i, k) && Clean(b, i, k) {
      assert Idle(n, i, k) && Clean(n, i, k);
      if IsInput(n.layout, i, k) {
        assert WiredCoupler(n.layout, i) && ManualShape(n, n.layout.defs[i].src);
        var row := n.slots[n.layout.defs[i].src][k];
        forall s: nat | s < |row| ensures Permitted(n.layout, n.flags, i, s) == Permitted(n.layout, b.flags, i, s) {
          ThroughPermitted(n, c, on, i, s);
          assert WiredManual(n.layout, n.layout.defs[i].src);
        }
        ThroughMax(n.layout, n.flags, b.flags, on, true, i, row);
      }
    }
    forall i: nat, j: nat ensures Linked(b, i, j) && SlotSync(b, i, j) && OutClean(b, i, j) {
      assert Linked(n, i, j) && SlotSync(n, i, j) && OutClean(n, i, j);
    }
    forall m: nat, k: nat
      ensures TotalSync(b, m, k) && DivKnown(b, m, k) && HeldSync(b, m, k) && DivClean(b, m, k) == DivClean(n, m, k)
    {
      assert TotalSync(n, m, k) && DivKnown(n, m, k) && HeldSync(n, m, k);
    }
    forall m: nat ensures CounterFits(b, m) && CounterSync(b, m) == CounterSync(n, m) {
      assert CounterFits(n, m);
    }
    if Quiescent(n) {
      assert forall m: nat, k: nat :: DivClean(n, m, k);
      assert forall m: nat :: CounterSync(n, m);
    }
  }

  // ---------- the effects of events ----------

  function Presses(members: seq<nat>, on: bool): (es: seq<Event>)
    ensures |es| == |members|
  {
    seq(|members|, j requires 0 <= j < |members| => CoupleThrough(members[j], on))
  }

  // A settled network stays so if counters, switches and right divisions stay.
  lemma QuiescentKept(a: Net, b: Net)
    requires Quiescent(a) && Resting(b) && DivisionsKept(a, b) && a.engaged == b.engaged
    ensures Quiescent(b)
  {
    forall m: nat ensures CounterSync(b, m) {
      assert CounterSync(a, m);
    }
    forall m: nat, k: nat ensures DivClean(b, m, k) {
      assert DivClean(a, m, k);
    }
  }

  // The effect of an event that leaves the counters alone.
  lemma KeptIsDone(a: Net, e: Event, b: Net)
    requires Resting(a) && Resting(b) && DivisionsKept(a, b) && Possible(a.layout, e)
    requires InputsOf(b) == AfterEvent(a.layout, InputsOf(a), e)
    requires forall m: nat :: CounterChange(a.layout, InputsOf(a), e, m) == 0
    ensures EventDone(a, e, b)
  {
    forall m: nat | IsManual(a.layout, m) ensures ManualDone(a, e, b, m) {
      assert CounterFits(a, m);
    }
  }

  lemma KeyIsDone(a: Net, e: Event, b: Net)
    requires Resting(a) && Resting(b) && DivisionsKept(a, b) && Possible(a.layout, e) && (e.Note? || e.AllNotesOff?)
    requires InputsOf(b) == AfterEvent(a.layout, InputsOf(a), e)
    ensures EventDone(a, e, b)
  {
    hide Resting, DivisionsKept, EventDone;
    KeptIsDone(a, e, b);
  }

  lemma SwitchIsDone(a: Net, c: nat, on: bool, b: Net)
    requires Resting(a) && Resting(b) && DivisionsKept(a, b) && c < |a.layout.defs| && c < |a.engaged|
    requires a.layout.defs[c].unisonOff ==> a.engaged[c] == on
    requires InputsOf(b) == InputsOf(a).(engaged := a.engaged[c := on])
    ensures EventDone(a, Switch(c, on), b)
  {
    hide Resting, DivisionsKept, EventDone;
    KeptIsDone(a, Switch(c, on), b);
  }

  lemma ThroughIsDone(a: Net, c: nat, on: bool, b: Net)
    requires Resting(a) && Resting(b) && DivisionsKept(a, b) && c < |a.layout.defs| && c < |a.flags|
             && !a.layout.defs[c].unisonOff
    requires InputsOf(b) == InputsOf(a).(flags := a.flags[c := AllFlags(on)])
    ensures EventDone(a, CoupleThrough(c, on), b)
    ensures Quiescent(a) ==> Quiescent(b)
  {
    hide Resting, DivisionsKept, EventDone, Quiescent;
    KeptIsDone(a, CoupleThrough(c, on), b);
    if Quiescent(a) {
      QuiescentKept(a, b);
    }
  }

  // The effect of SetUnisonOff on a network `n` that differs from `a` in a switch or a flag.
  lemma CountedIsDone(a: Net, e: Event, n: Net, m: nat, on: bool)
    requires Resting(a) && Resting(n) && DivisionsKept(a, n) && Possible(a.layout, e) && IsManual(a.layout, m)
    requires n.slots == a.slots && n.total == a.total && n.remote == a.remote
    requires InputsOf(n) == AfterEvent(a.layout, InputsOf(a), e)
    requires forall i: nat :: CounterChange(a.layout, InputsOf(a), e, i) == if i == m then (if on then 1 else -1) else 0
    ensures EventDone(a, e, AfterUnison(n, m, on))
  {
    hide CounterChange, DivClean, CounterFits;
    var b := AfterUnison(n, m, on);
    UnisonRests(n, m, on);
    forall i: nat | IsManual(a.layout, i) ensures ManualDone(a, e, b, i) {
      assert CounterFits(n, i);
      UnisonCounts(n, m, on, i);
      hide AfterUnison;
      forall k: nat ensures DivClean(b, i, k) <==> KeyRight(a, e, b, i, k) {
        UnisonTells(n, m, on, i, k);
        SameRowsAlike(a, n, i, k);
        assert DivClean(n, i, k) <==> DivClean(a, i, k) || !SameRow(a, n, i, k);
        SameRowTwice(a, n, b, i, k);
      }
    }
  }

  lemma SameRowsAlike(a: Net, n: Net, m: nat, k: nat)
    requires Shape(a) && Shape(n) && a.layout == n.layout
    requires n.slots == a.slots && n.total == a.total && n.remote == a.remote
    ensures SameRow(a, n, m, k) && (SoundsAlike(a, m, k) <==> SoundsAlike(n, m, k))
  {
    assert ManualShape(a, m) && ManualShape(n, m);
  }

  lemma UnisonCounts(n: Net, m: nat, on: bool, i: nat)
    requires Shape(n) && IsManual(n.layout, m) && IsManual(n.layout, i) && CounterFits(n, i)
    ensures var change := if i == m then (if on then 1 else -1) else 0;
            && AfterUnison(n, m, on).unison[i] == (n.unison[i] + change) % WORD
            && (i == m ==> (InRange(n.unison[i] + change) <==> !Wraps(n, m, on)))
            && (i == m ==> (Told(n.unison[i], change) <==> Tells(n, m, on)))
  {
  }

  lemma ThrowIsDone(a: Net, c: nat, on: bool)
    requires Resting(a) && c < |a.layout.defs| && c < |a.engaged| && a.layout.defs[c].unisonOff && a.engaged[c] != on
    ensures var m := a.layout.defs[c].src;
            Shape(StoreEngaged(a, c, on)) && IsManual(a.layout, m)
              && EventDone(a, Switch(c, on), AfterUnison(StoreEngaged(a, c, on), m, on))
  {
    hide Resting, DivisionsKept, EventDone;
    SwitchRests(a, c, on);
    RestingShape(StoreEngaged(a, c, on));
    AboutCoupler(StoreEngaged(a, c, on), c);
    CountedIsDone(a, Switch(c, on), StoreEngaged(a, c, on), a.layout.defs[c].src, on);
  }

  lemma RefreshIsDone(a: Net, c: nat, on: bool)
    requires Resting(a) && c < |a.layout.defs| && c < |a.engaged| && c < |a.flags| && a.layout.defs[c].unisonOff
    ensures var m, n := a.layout.defs[c].src, StoreFlags(a, c, AllFlags(on));
            Shape(n) && IsManual(a.layout, m) && EventDone(a, CoupleThrough(c, on), AfterUnison(n, m, a.engaged[c]))
  {
    hide Resting, DivisionsKept, EventDone;
    UnisonFlagsIrrelevant(a, c, on);
    RestingShape(StoreFlags(a, c, AllFlags(on)));
    AboutCoupler(StoreFlags(a, c, AllFlags(on)), c);
    CountedIsDone(a, CoupleThrough(c, on), StoreFlags(a, c, AllFlags(on)), a.layout.defs[c].src, a.engaged[c]);
  }

  lemma UnisonSource(n: Net, c: nat)
    requires Shape(n) && c < |n.layout.defs|
    ensures IsManual(n.layout, n.layout.defs[c].src)
  {
    assert WiredCoupler(n.layout, c);
  }

  lemma EventFlags(a: Net, c: nat, on: bool, b: Net)
    requires Possible(a.layout, CoupleThrough(c, on)) && EventDone(a, CoupleThrough(c, on), b)
    ensures Resting(b) && b.layout == a.layout && b.flags == if c < |a.flags| then a.flags[c := AllFlags(on)]
            else a.flags
  {
  }

  lemma DoneRests(a: Net, e: Event, b: Net)
    requires Possible(a.layout, e) && EventDone(a, e, b)
    ensures Resting(b) && b.layout == a.layout
  {
  }

  lemma AboutCoupler(n: Net, c: nat)
    requires Shape(n)
    ensures WiredCoupler(n.layout, c) && CouplerShape(n, c)
  {
  }

  lemma OwnCoupler(n: Net, c: nat)
    requires Shape(n) && c < |n.layout.defs|
    ensures n.layout.defs[c].src < |n.layout.manuals| && c in n.layout.manuals[n.layout.defs[c].src].couplers
  {
    assert WiredCoupler(n.layout, c);
  }

  lemma NothingToHear(n: Net, m: nat, k: nat)
    requires Shape(n) && !IsKey(n.layout, m, k)
    ensures forall c: nat :: c < |n.layout.defs| && n.layout.defs[c].src == m ==> Clean(n, c, k)
  {
  }

  lemma AboutManual(n: Net, m: nat)
    requires Shape(n)
    ensures WiredManual(n.layout, m) && ManualShape(n, m)
  {
  }

  lemma CascadeReflexive(n: Net, up: bool, bound: nat)
    requires Shape(n)
    ensures Step(n, n, up, bound) && SameKeyboardSlots(n, n)
  {
  }

  lemma CascadeTransitive(a: Net, b: Net, c: Net, up: bool, bound: nat)
    requires Shape(a) && Shape(b) && Shape(c)
    requires Step(a, b, up, bound) && Step(b, c, up, bound) && SameKeyboardSlots(a, b) && SameKeyboardSlots(b, c)
    ensures Step(a, c, up, bound) && SameKeyboardSlots(a, c)
    ensures Measure(c.slots, up, bound) <= Measure(a.slots, up, bound)
  {
    StepTransitive(a, b, c, up, bound);
  }

  lemma StepKeepsClean(a: Net, b: Net, up: bool, bound: nat)
    requires Shape(a) && Shape(b) && Step(a, b, up, bound)
    ensures forall c: nat, k: nat :: Clean(a, c, k) ==> Clean(b, c, k)
    ensures Measure(b.slots, up, bound) <= Measure(a.slots, up, bound)
  {
  }

  lemma SameKeyboards(a: Net, b: Net)
    requires Shape(a) && Shape(b) && SameKeyboardSlots(a, b)
    ensures forall m: nat, k: nat :: KeyboardSlot(b, m, k) == KeyboardSlot(a, m, k)
  {
  }

  lemma PendingIndex(n: Net, up: bool, bound: nat, m: nat, k: nat, i: nat, vel: nat)
    requires SlotPending(n, up, bound, m, k, i, vel)
    ensures IsManual(n.layout, m) && i <= |n.layout.manuals[m].inputs|
  {
  }

  // The divisions when the counter leaves or reaches zero.
  lemma UnisonDivision(n: Net, m: nat, on: bool)
    requires Shape(n) && IsManual(n.layout, m) && m < |n.unison| && m < |n.division| && m < |n.remote| && m < |n.total|
    requires if on then n.unison[m] == 0 else (n.unison[m] + WORD - 1) % WORD == 0
    ensures AfterUnison(n, m, on).division == n.division[m := Divided(if on then n.remote[m] else n.total[m])]
  {
    AboutManual(n, m);
    assert AfterUnison(n, m, on).division[m] == Divided(if on then n.remote[m] else n.total[m]);
  }

  function Divided(s: seq<nat>): (r: seq<nat>)
    ensures |r| == |s|
  {
    seq(|s|, k requires 0 <= k < |s| => s[k] / 4)
  }

  lemma UnisonStored(a: Net, b: Net)
    requires Shape(a) && b == a.(unison := b.unison) && |b.unison| == |a.unison|
    ensures Shape(b)
  {
    forall m: nat ensures ManualShape(b, m) {
      assert ManualShape(a, m);
    }
    forall c: nat ensures CouplerShape(b, c) {
      assert CouplerShape(a, c);
    }
  }

  lemma StepKeeps(a: Net, b: Net, up: bool, bound: nat)
    requires Shape(a) && Shape(b) && Step(a, b, up, bound)
    ensures SameSwitches(a, b) && a.held == b.held
  {
  }

  lemma StepKeepsOut(a: Net, b: Net, up: bool, bound: nat)
    requires Shape(a) && Shape(b) && Step(a, b, up, bound)
    ensures SameSwitches(a, b)
    ensures forall c: nat, j: nat :: OutClean(a, c, j) ==> OutClean(b, c, j)
  {
  }

  lemma CounterSmall(n: Net, m: nat)
    requires Resting(n) && IsManual(n.layout, m)
    ensures n.unison[m] < WORD
  {
    assert CounterFits(n, m);
  }

  // A key that the coupler does not sound now either never needed attention after the flags
  // changed, or was looked after when the cascade silenced it.
  lemma SilentKeyClean(n: Net, n1: Net, n2: Net, c: nat, on: bool, bound: nat, i: nat)
    requires Resting(n) && c < |n.layout.defs| && !n.layout.defs[c].unisonOff && bound == Measure(n.slots, false, 0)
    requires n1 == StoreFlags(n, c, AllFlags(on))
    requires Shape(n1) && Running(n2, on, bound) && Step(n1, n2, on, bound)
    requires IsOutput(n.layout, c, i) && CouplerShape(n2, c) && n2.outVel[c][i] == 0
    ensures forall d: nat :: d < |n.layout.defs| && n.layout.defs[d].src == n.layout.defs[c].dest ==> Clean(n2, d, i)
  {
    hide Resting, Running, Wired;
    RestingShape(n);
    RunningShape(n2, on, bound);
    ThroughStarts(n, c, on, bound);
    AboutCoupler(n, c);
    AboutManual(n, n.layout.defs[c].dest);
    AboutManual(n2, n.layout.defs[c].dest);
    RestingSlot(n, c, i);
    RunningSlot(n2, on, bound, c, i);
    forall d: nat | d < |n.layout.defs| && n.layout.defs[d].src == n.layout.defs[c].dest ensures Clean(n2, d, i) {
      if SameRow(n1, n2, n.layout.defs[d].src, i) {
        assert n.outVel[c][i] == 0;
        assert Clean(n1, d, i);
      }
    }
  }

  lemma RestingSlot(n: Net, c: nat, i: nat)
    requires Resting(n)
    ensures SlotSync(n, c, i)
  {
  }

  lemma RunningShape(n: Net, up: bool, bound: nat)
    requires Running(n, up, bound)
    ensures Shape(n)
  {
  }

  lemma RunningSlot(n: Net, up: bool, bound: nat, c: nat, i: nat)
    requires Running(n, up, bound)
    ensures SlotSync(n, c, i)
  {
  }

  lemma AllHeard(a: Net, b: Net, m: nat, up: bool, bound: nat, out: seq<nat>)
    requires Shape(a) && Shape(b) && Step(a, b, up, bound) && IsManual(a.layout, m)
    requires forall c: nat, k: nat ::
               (c < |a.layout.defs| && a.layout.defs[c].src == m && k < |out| && out[k] > 0) || Clean(a, c, k)
    requires forall c: nat, k: nat :: c < |a.layout.defs| && a.layout.defs[c].src == m && k < |out| ==> Clean(b, c, k)
    ensures forall c: nat, k: nat :: Clean(b, c, k)
  {
    forall c: nat, k: nat ensures Clean(b, c, k) {
      assert (c < |a.layout.defs| && a.layout.defs[c].src == m && k < |out| && out[k] > 0) || Clean(a, c, k);
    }
  }

  lemma StepMeasure(a: Net, b: Net, up: bool, bound: nat)
    requires Shape(a) && Shape(b) && Step(a, b, up, bound)
    ensures Measure(b.slots, up, bound) <= Measure(a.slots, up, bound)
  {
  }

  lemma StoreInternalShape(n: Net, c: nat, j: nat, v: nat)
    requires Shape(n) && IsOutput(n.layout, c, j)
    ensures CouplerShape(n, c) && Shape(StoreInternal(n, c, j, v))
  {
    assert CouplerShape(n, c);
    var b := StoreInternal(n, c, j, v);
    forall m: nat ensures ManualShape(b, m) {
      assert ManualShape(n, m);
    }
    forall i: nat ensures CouplerShape(b, i) {
      assert CouplerShape(n, i);
    }
  }

  lemma NotKeyboard(a: Net, b: Net)
    requires Shape(a) && Shape(b) && a.layout == b.layout
    requires forall m: nat, k: nat :: KeyboardSlot(b, m, k) == KeyboardSlot(a, m, k)
    ensures SameKeyboardSlots(a, b)
  {
  }

  lemma DivisionShape(a: Net, b: Net)
    requires Shape(a) && b == a.(division := b.division) && |b.division| == |a.division|
    requires forall m :: 0 <= m < |a.division| ==> |b.division[m]| == |a.division[m]|
    ensures Shape(b)
  {
    forall m: nat ensures ManualShape(b, m) {
      assert ManualShape(a, m);
    }
    forall c: nat ensures CouplerShape(b, c) {
      assert CouplerShape(a, c);
    }
  }

  lemma NothingPending(n: Net, up: bool, bound: nat, m: nat, k: nat, i: nat, vel: nat)
    requires SlotPending(n, up, bound, m, k, i, vel)
    requires IsKey(n.layout, m, k) ==> ManualShape(n, m) && n.slots[m][k][i] == vel
    ensures Running(n, up, bound) && Step(n, n, up, bound)
    ensures IsKey(n.layout, m, k) && i == 0 ==> KeyboardSlot(n, m, k) == vel
  {
    forall c: nat, j: nat ensures SlotSync(n, c, j) {
      assert IsSlot(n.layout, c, j, m, k, i) || SlotSync(n, c, j);
      assert WiredCoupler(n.layout, c) && WiredManual(n.layout, m);
    }
  }

  lemma SameInternal(n: Net, c: nat, k: nat)
    requires Shape(n) && IsInput(n.layout, c, k) && Reaches(n.layout, c, k) && CouplerShape(n, c)
    requires n.internalVel[c][k + n.layout.defs[c].keyshift] == n.keyVel[c][k]
    ensures Completed(n, c, k) == n
  {
    var j := k + n.layout.defs[c].keyshift;
    assert n.internalVel[c] == n.internalVel[c][j := n.keyVel[c][k]];
    assert n.internalVel == Put(n.internalVel, c, j, n.keyVel[c][k]);
  }

  // Writing a slot (a to b), telling the couplers of that key (b to c) and its division (c to d).
  lemma SlotCascade(a: Net, b: Net, c: Net, d: Net, up: bool, bound: nat, m: nat, k: nat)
    requires Shape(a) && Shape(b) && Shape(c) && Shape(d) && SameSwitches(a, b) && a.held == b.held
    requires forall i: nat, kk: nat ::
               Clean(a, i, kk) && !(IsInput(a.layout, i, kk) && a.layout.defs[i].src == m && kk == k) ==>
                 Clean(b, i, kk)
    requires forall i: nat, j: nat :: OutClean(a, i, j) ==> OutClean(b, i, j)
    requires forall mm: nat, kk: nat :: DivClean(a, mm, kk) && !(mm == m && kk == k) ==> DivClean(b, mm, kk)
    requires forall mm: nat, kk: nat :: if mm == m && kk == k then !SameRow(a, b, mm, kk) else SameRow(a, b, mm, kk)
    requires forall mm: nat, kk: nat :: RowMoves(a, b, up, mm, kk)
    requires b.division == a.division
    requires Measure(b.slots, up, bound) < Measure(a.slots, up, bound)
    requires Step(b, c, up, bound)
    requires SameSwitches(c, d) && c.held == d.held && c.slots == d.slots && DivClean(d, m, k)
    requires forall i: nat, kk: nat :: Clean(c, i, kk) == Clean(d, i, kk)
    requires forall i: nat, j: nat :: OutClean(c, i, j) == OutClean(d, i, j)
    requires forall mm: nat, kk: nat :: DivClean(c, mm, kk) ==> DivClean(d, mm, kk)
    requires forall mm: nat, kk: nat :: (mm == m && kk == k) || SameDivision(c, d, mm, kk)
    requires forall i: nat :: i < |a.layout.defs| && a.layout.defs[i].src == m ==> Clean(c, i, k)
    ensures Step(a, d, up, bound)
  {
    forall mm: nat, kk: nat
      ensures RowMoves(a, d, up, mm, kk)
      ensures SameRow(a, d, mm, kk) ==> SameRow(a, b, mm, kk) && SameRow(b, c, mm, kk) && !(mm == m && kk == k)
    {
      RowBetween(a, b, c, up, mm, kk);
      SameSlotsRow(a, c, d, up, mm, kk);
    }
    forall i: nat, kk: nat | i < |a.layout.defs|
      ensures Clean(a, i, kk) ==> Clean(d, i, kk)
      ensures !SameRow(a, d, a.layout.defs[i].src, kk) ==> Clean(d, i, kk)
    {
      assert Clean(b, i, kk) ==> Clean(c, i, kk);
      var src := a.layout.defs[i].src;
      assert if src == m && kk == k then !SameRow(a, b, src, kk) else SameRow(a, b, src, kk);
      SameSlotsRow(a, c, d, up, src, kk);
      if SameRow(a, b, src, kk) && SameRow(b, c, src, kk) { SameRowTwice(a, b, c, src, kk); }
    }
    forall mm: nat, kk: nat
      ensures DivClean(a, mm, kk) ==> DivClean(d, mm, kk)
      ensures !SameRow(a, d, mm, kk) ==> DivClean(d, mm, kk)
      ensures SameRow(a, d, mm, kk) ==> SameDivision(a, d, mm, kk)
    {
      SlotCascadeDivision(a, b, c, d, up, bound, m, k, mm, kk);
    }
  }

  lemma SameSlotsRow(a: Net, c: Net, d: Net, up: bool, m: nat, k: nat)
    requires Shape(a) && Shape(c) && Shape(d) && a.layout == c.layout == d.layout && c.slots == d.slots
    ensures SameRow(a, c, m, k) == SameRow(a, d, m, k) && RowMoves(a, c, up, m, k) == RowMoves(a, d, up, m, k)
  {
    assert ManualShape(a, m) && ManualShape(c, m) && ManualShape(d, m);
  }

  lemma SlotCascadeDivision(a: Net, b: Net, c: Net, d: Net, up: bool, bound: nat, m: nat, k: nat, mm: nat, kk: nat)
    requires Shape(a) && Shape(b) && Shape(c) && Shape(d) && a.layout == b.layout && Step(b, c, up, bound)
    requires c.layout == d.layout && c.slots == d.slots && b.division == a.division && DivClean(d, m, k)
    requires DivClean(a, mm, kk) && !(mm == m && kk == k) ==> DivClean(b, mm, kk)
    requires if mm == m && kk == k then !SameRow(a, b, mm, kk) else SameRow(a, b, mm, kk)
    requires DivClean(c, mm, kk) ==> DivClean(d, mm, kk)
    requires (mm == m && kk == k) || SameDivision(c, d, mm, kk)
    requires SameRow(a, d, mm, kk) ==> SameRow(a, b, mm, kk) && SameRow(b, c, mm, kk) && !(mm == m && kk == k)
    ensures DivClean(a, mm, kk) ==> DivClean(d, mm, kk)
    ensures !SameRow(a, d, mm, kk) ==> DivClean(d, mm, kk)
    ensures SameRow(a, d, mm, kk) ==> SameDivision(a, d, mm, kk)
  {
    if !(mm == m && kk == k) {
      assert DivClean(b, mm, kk) ==> DivClean(c, mm, kk);
      assert ManualShape(a, mm) && ManualShape(b, mm) && ManualShape(c, mm) && ManualShape(d, mm);
      if SameRow(a, d, mm, kk) {
        assert SameDivision(b, c, mm, kk);
      } else {
        assert !SameRow(b, c, mm, kk);
        assert DivClean(c, mm, kk);
      }
    }
  }
}
