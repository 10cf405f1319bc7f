// What a network at rest does with a key, said of the settings of the manuals and couplers
// alone: what the keyboard, a coupler and the stops hold, which couplers feed which, and what
// each event changes.
module CouplerLaws {
  import opened CouplerNet
  import opened CouplerQuiet

  // What coupler c has put into its slot of key j of its destination manual.
  ghost function SlotOf(n: Net, c: nat, j: nat): nat
    requires Shape(n) && IsOutput(n.layout, c, j)
  {
    assert WiredCoupler(n.layout, c) && ManualShape(n, n.layout.defs[c].dest);
    n.slots[n.layout.defs[c].dest][j][n.layout.defs[c].index]
  }

  // Coupler d starts where coupler c ends, and key k of that manual is one that d listens to:
  // its note is not below FirstMIDINoteNumber, and it is one of the NumberOfKeys keys from there,
  // or from the first key of the manual if that is higher.
  ghost predicate Meets(l: Layout, c: nat, d: nat, k: nat) {
    && IsOutput(l, c, k) && d < |l.defs| && l.defs[d].src == l.defs[c].dest
    && Listens(l.manuals[l.defs[d].src], l.defs[d], k)
  }

  predicate Listens(m: ManualDef, d: CouplerDef, k: nat) {
    var first := m.firstMidi - m.firstLogical + 1;
    && d.firstMidiNote <= k + first
    && (k + first < d.firstMidiNote + d.numKeys || k < d.numKeys)
  }

  // Coupler d plays key j of its destination when key k of its source is heard.
  predicate Plays(l: Layout, d: nat, k: nat, j: nat) {
    && IsOutput(l, d, j) && IsInput(l, d, k)
    && var s, t := l.manuals[l.defs[d].src], l.manuals[l.defs[d].dest];
       j + t.firstMidi - t.firstLogical == k + s.firstMidi - s.firstLogical + l.defs[d].destKeyshift
  }

  // No slot of the key but slot i holds anything.
  ghost predicate OnlySlot(n: Net, m: nat, k: nat, i: nat)
    requires Shape(n) && IsKey(n.layout, m, k)
  {
    assert ManualShape(n, m);
    forall o :: 0 <= o < |n.slots[m][k]| && o != i ==> n.slots[m][k][o] == 0
  }

  lemma WindowInNotes(l: Layout, d: nat, k: nat)
    requires Wired(l) && IsInput(l, d, k)
    ensures Listens(l.manuals[l.defs[d].src], l.defs[d], k) <==> l.defs[d].InWindow(k)
  {
    assert WiredCoupler(l, d);
  }

  // Which coupler may be heard through which: a unison coupler through those that couple to
  // subsequent unison couplers, and one that transposes up or down, within its manual or to
  // another one, through those with the setting of just this kind.  Then the velocity, less one,
  // is in the slot of the second coupler.
  lemma Subsequent(n: Net, c: nat, d: nat, k: nat, j: nat)
    requires Resting(n) && Meets(n.layout, c, d, k) && Plays(n.layout, d, k, j) && n.engaged[d]
    ensures Shape(n)
    ensures var f, x, heard := n.flags[c], n.layout.defs[d], SlotOf(n, c, k) <= SlotOf(n, d, j) + 1;
            && (f.unisonInter && x.destKeyshift == 0 ==> heard)
            && (f.upIntra && x.destKeyshift > 0 && x.src == x.dest ==> heard)
            && (f.downIntra && x.destKeyshift < 0 && x.src == x.dest ==> heard)
            && (f.upInter && x.destKeyshift > 0 && x.src != x.dest ==> heard)
            && (f.downInter && x.destKeyshift < 0 && x.src != x.dest ==> heard)
  {
    CoupledOn(n, c, d, k);
    Sent(n, d, k, j);
  }

  // What coupler d has taken over of a key.  If coupler c alone feeds the key that is nothing
  // without the setting of the right kind, and with it the whole velocity.
  lemma CoupledOn(n: Net, c: nat, d: nat, k: nat)
    requires Resting(n) && Meets(n.layout, c, d, k)
    ensures Shape(n) && WiredCoupler(n.layout, d) && CouplerShape(n, d)
    ensures var f, x := n.flags[c], n.layout.defs[d];
            var v, taken, alone := SlotOf(n, c, k), n.keyVel[d][k], OnlySlot(n, x.src, k, n.layout.defs[c].index);
            && (f.unisonInter && x.destKeyshift == 0 ==> v <= taken && (alone ==> v == taken))
            && (f.upIntra && x.destKeyshift > 0 && x.src == x.dest ==> v <= taken && (alone ==> v == taken))
            && (f.downIntra && x.destKeyshift < 0 && x.src == x.dest ==> v <= taken && (alone ==> v == taken))
            && (f.upInter && x.destKeyshift > 0 && x.src != x.dest ==> v <= taken && (alone ==> v == taken))
            && (f.downInter && x.destKeyshift < 0 && x.src != x.dest ==> v <= taken && (alone ==> v == taken))
            && (alone && !f.unisonInter && x.destKeyshift == 0 ==> taken == 0)
            && (alone && !f.upIntra && x.destKeyshift > 0 && x.src == x.dest ==> taken == 0)
            && (alone && !f.downIntra && x.destKeyshift < 0 && x.src == x.dest ==> taken == 0)
            && (alone && !f.upInter && x.destKeyshift > 0 && x.src != x.dest ==> taken == 0)
            && (alone && !f.downInter && x.destKeyshift < 0 && x.src != x.dest ==> taken == 0)
  {
    var m := n.layout.defs[d].src;
    assert WiredCoupler(n.layout, d) && WiredCoupler(n.layout, c) && WiredManual(n.layout, m);
    assert CouplerShape(n, d) && ManualShape(n, m);
    WindowInNotes(n.layout, d, k);
    assert Clean(n, d, k);
    var row := n.slots[m][k];
    var i := n.layout.defs[c].index;
    assert Permitted(n.layout, n.flags, d, i) <==> Permits(n.flags[c], n.layout.defs[d]);
    var taken := MaxPermitted(n.layout, n.flags, d, row, |row|);
    assert Permitted(n.layout, n.flags, d, i) ==> row[i] <= taken;
    assert n.keyVel[d][k] == taken;
  }

  // A key of the own keyboard is always taken over; a key that the coupler does not listen to
  // never is.
  lemma OwnKeyboardCoupled(n: Net, d: nat, k: nat)
    requires Resting(n) && IsInput(n.layout, d, k)
    ensures Shape(n) && CouplerShape(n, d) && ManualShape(n, n.layout.defs[d].src)
    ensures Listens(n.layout.manuals[n.layout.defs[d].src], n.layout.defs[d], k) ==>
              n.slots[n.layout.defs[d].src][k][0] <= n.keyVel[d][k]
    ensures !Listens(n.layout.manuals[n.layout.defs[d].src], n.layout.defs[d], k) ==> n.keyVel[d][k] == 0
  {
    var m := n.layout.defs[d].src;
    assert CouplerShape(n, d) && WiredCoupler(n.layout, d) && WiredManual(n.layout, m) && ManualShape(n, m);
    WindowInNotes(n.layout, d, k);
    assert Clean(n, d, k) && Idle(n, d, k);
    assert Permitted(n.layout, n.flags, d, 0);
    var row := n.slots[m][k];
    assert row[0] <= MaxPermitted(n.layout, n.flags, d, row, |row|);
  }

  // An engaged coupler sends what it has taken over of a key, less one, to the key whose note
  // is higher by DestinationKeyshift; a coupler that is not engaged sends nothing.
  lemma Sent(n: Net, d: nat, k: nat, j: nat)
    requires Resting(n) && Plays(n.layout, d, k, j)
    ensures Shape(n) && CouplerShape(n, d) && WiredCoupler(n.layout, d)
    ensures SlotOf(n, d, j) == if n.engaged[d] && n.keyVel[d][k] > 0 then n.keyVel[d][k] - 1 else 0
  {
    assert CouplerShape(n, d) && WiredCoupler(n.layout, d) && ManualShape(n, n.layout.defs[d].dest);
    assert SlotSync(n, d, j) && OutClean(n, d, j) && Linked(n, d, j);
  }

  // A key that no key of the source manual plays gets nothing.
  lemma NothingSent(n: Net, d: nat, j: nat)
    requires Resting(n) && IsOutput(n.layout, d, j) && forall k: nat :: !Plays(n.layout, d, k, j)
    ensures Shape(n) && SlotOf(n, d, j) == 0
  {
    assert CouplerShape(n, d) && WiredCoupler(n.layout, d) && ManualShape(n, n.layout.defs[d].dest);
    assert SlotSync(n, d, j) && OutClean(n, d, j) && Linked(n, d, j);
    var k := j - n.layout.defs[d].keyshift;
    if 0 <= k < |n.keyVel[d]| {
      assert Plays(n.layout, d, k, j);
    }
  }

  // An accessible key of velocity v puts 4v + 3 into slot 0 of its logical key; keys that are
  // not held put nothing there, nor is there anything where there is no accessible key.
  lemma OwnKeyboard(n: Net, m: nat, k: nat)
    requires Resting(n) && IsKey(n.layout, m, k)
    ensures Shape(n) && ManualShape(n, m)
    ensures forall a {:trigger n.held[m][a]} ::
              0 <= a < |n.held[m]| && k + 1 == a + n.layout.manuals[m].firstLogical ==>
              n.slots[m][k][0] == if n.held[m][a] > 0 then 4 * n.held[m][a] + 3 else 0
    ensures !(0 <= k + 1 - n.layout.manuals[m].firstLogical < n.layout.manuals[m].accessible) ==> n.slots[m][k][0] == 0
  {
    assert ManualShape(n, m) && WiredManual(n.layout, m) && HeldSync(n, m, k);
  }

  // What the stops have been told of a key of a settled network: a quarter of the largest
  // slot, without that of the own keyboard if some unison-off coupler of the manual is engaged.
  lemma Heard(n: Net, m: nat, k: nat)
    requires Quiescent(n) && IsKey(n.layout, m, k)
    ensures Shape(n) && ManualShape(n, m)
    ensures var off := exists c :: 0 <= c < |n.layout.defs| && n.layout.defs[c].unisonOff
                                   && n.layout.defs[c].src == m && n.engaged[c];
            var row, told := n.slots[m][k], n.division[m][k];
            && (forall i :: (if off then 1 else 0) <= i < |row| ==> row[i] / 4 <= told)
            && (told == 0 || exists i :: (if off then 1 else 0) <= i < |row| && row[i] / 4 == told)
  {
    assert ManualShape(n, m) && TotalSync(n, m, k) && DivClean(n, m, k) && CounterSync(n, m);
    var offs := EngagedUnisonOff(n, m);
    var row := n.slots[m][k];
    if c :| 0 <= c < |n.layout.defs| && n.layout.defs[c].unisonOff && n.layout.defs[c].src == m && n.engaged[c] {
      assert c in offs;
      assert n.division[m][k] == MaxRange(row, 1, |row|) / 4;
    } else {
      assert offs == {};
      assert n.division[m][k] == MaxRange(row, 0, |row|) / 4;
    }
  }

  // What an event leaves of the held keys, switches and settings, one by one.
  lemma EventLeaves(l: Layout, i: Inputs, e: Event)
    requires Possible(l, e) && |i.held| == |l.manuals| && |i.engaged| == |i.flags| == |l.defs|
    requires forall m :: 0 <= m < |i.held| ==> |i.held[m]| == l.manuals[m].accessible
    ensures var r := AfterEvent(l, i, e);
            && |r.held| == |i.held| && |r.engaged| == |i.engaged| && |r.flags| == |i.flags|
            && (forall m, a :: 0 <= m < |i.held| && 0 <= a < |i.held[m]| ==>
                  && |r.held[m]| == |i.held[m]|
                  && r.held[m][a] ==
                       if e.Note? && e.manual == m && e.midiNote == l.manuals[m].firstMidi + a then e.velocity
                       else if e.AllNotesOff? && e.manual == m then 0
                       else i.held[m][a])
            && (forall c :: 0 <= c < |i.engaged| ==>
                  r.engaged[c] == if e.Switch? && e.coupler == c then e.on else i.engaged[c])
            && (forall c :: 0 <= c < |i.flags| ==>
                  if e.CoupleThrough? && e.coupler == c then
                    && r.flags[c].unisonInter == r.flags[c].upInter == r.flags[c].downInter == e.on
                    && r.flags[c].upIntra == r.flags[c].downIntra == e.on
                  else r.flags[c] == i.flags[c])
  {
    if e.AllNotesOff? {
      ReleasedIsSilent(l, i, e.manual, l.manuals[e.manual].accessible);
    }
  }
}
