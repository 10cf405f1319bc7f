// The coupler network as a value: what every manual and every coupler stores, when each
// stored number agrees with the numbers it is computed from, and the elementary writes that
// the methods of CouplerOrgan perform.  The network may be cyclic: couplers can feed each
// other or themselves.
module CouplerNet {
  import opened Arithmetic

  // The five CoupleToSubsequent... settings of a coupler.
  datatype Flags = Flags(
    unisonInter: bool,
    upInter: bool,
    downInter: bool,
    upIntra: bool,
    downIntra: bool)

  // SetRecursive gives all five settings the same value.
  function AllFlags(on: bool): Flags {
    Flags(on, on, on, on, on)
  }

  // The part of a coupler that is fixed once playback is prepared.  `index` is the input
  // slot it drives on its destination manual; a unison-off coupler drives none.  `keyshift`
  // (in keys) and `firstKey` are worked out from `destKeyshift` (in notes) and
  // `firstMidiNote` when playback is prepared.
  datatype CouplerDef = CouplerDef(
    src: nat,
    dest: nat,
    index: nat,
    destKeyshift: int,
    keyshift: int,
    firstMidiNote: int,
    firstKey: nat,
    numKeys: nat,
    unisonOff: bool)
  {
    predicate IsIntermanual() {
      src != dest
    }

    predicate InWindow(key: nat) {
      firstKey <= key < firstKey + numKeys
    }
  }

  // The fixed part of a manual.  `inputs` are the couplers that drive slots 1, 2, ...
  // (slot 0 is the keyboard itself); `couplers` are those that start here.
  datatype ManualDef = ManualDef(
    keys: nat,
    firstMidi: nat,
    firstLogical: nat,
    accessible: nat,
    inputs: seq<nat>,
    couplers: seq<nat>)
  {
    // The MIDI note of logical key 0.
    function FirstNote(): int {
      firstMidi - firstLogical + 1
    }
  }

  datatype Layout = Layout(manuals: seq<ManualDef>, defs: seq<CouplerDef>)

  datatype Net = Net(
    layout: Layout,
    // per coupler
    flags: seq<Flags>,
    engaged: seq<bool>,
    keyVel: seq<seq<nat>>,
    internalVel: seq<seq<nat>>,
    outVel: seq<seq<nat>>,
    // per manual
    held: seq<seq<nat>>,
    slots: seq<seq<seq<nat>>>,
    total: seq<seq<nat>>,
    remote: seq<seq<nat>>,
    division: seq<seq<nat>>,
    unison: seq<nat>)

  // ---------- wiring and shape ----------

  predicate IsManual(l: Layout, m: nat) {
    m < |l.manuals|
  }

  predicate IsKey(l: Layout, m: nat, k: nat) {
    m < |l.manuals| && k < l.manuals[m].keys
  }

  predicate WiredManual(l: Layout, m: nat) {
    IsManual(l, m) ==>
      && 1 <= l.manuals[m].firstLogical
      && (forall i {:trigger l.manuals[m].inputs[i]} :: 0 <= i < |l.manuals[m].inputs| ==>
            var c := l.manuals[m].inputs[i];
            c < |l.defs| && !l.defs[c].unisonOff && l.defs[c].dest == m && l.defs[c].index == i + 1)
      && (forall i {:trigger l.manuals[m].couplers[i]} :: 0 <= i < |l.manuals[m].couplers| ==>
            l.manuals[m].couplers[i] < |l.defs| && l.defs[l.manuals[m].couplers[i]].src == m)
  }

  predicate WiredCoupler(l: Layout, c: nat) {
    c < |l.defs| ==>
      var d := l.defs[c];
      && d.src < |l.manuals|
      && c in l.manuals[d.src].couplers
      && d.firstKey == (if d.firstMidiNote > l.manuals[d.src].FirstNote()
         then d.firstMidiNote - l.manuals[d.src].FirstNote() else 0)
      && (!d.unisonOff ==>
            && d.dest < |l.manuals|
            && 1 <= d.index <= |l.manuals[d.dest].inputs|
            && l.manuals[d.dest].inputs[d.index - 1] == c
            && d.keyshift == d.destKeyshift + l.manuals[d.src].FirstNote() - l.manuals[d.dest].FirstNote())
  }

  ghost predicate Wired(l: Layout) {
    && |l.defs| < WORD
    && (forall m: nat :: WiredManual(l, m))
    && (forall c: nat :: WiredCoupler(l, c))
  }

  predicate ManualShape(n: Net, m: nat)
    requires |n.held| == |n.slots| == |n.total| == |n.remote| == |n.division| == |n.unison| == |n.layout.manuals|
  {
    IsManual(n.layout, m) ==>
      var d := n.layout.manuals[m];
      && |n.held[m]| == d.accessible
      && |n.slots[m]| == |n.total[m]| == |n.remote[m]| == |n.division[m]| == d.keys
      && (forall k {:trigger n.slots[m][k]} :: 0 <= k < d.keys ==> |n.slots[m][k]| == 1 + |d.inputs|)
  }

  predicate CouplerShape(n: Net, c: nat)
    requires |n.flags| == |n.engaged| == |n.keyVel| == |n.internalVel| == |n.outVel| == |n.layout.defs|
    requires WiredCoupler(n.layout, c)
  {
    c < |n.layout.defs| ==>
      var d := n.layout.defs[c];
      var width := if d.unisonOff then 0 else n.layout.manuals[d.dest].keys;
      && |n.keyVel[c]| == n.layout.manuals[d.src].keys
      && |n.internalVel[c]| == |n.outVel[c]| == width
  }

  ghost predicate Shape(n: Net) {
    && Wired(n.layout)
    && |n.held| == |n.slots| == |n.total| == |n.remote| == |n.division| == |n.unison| == |n.layout.manuals|
    && |n.flags| == |n.engaged| == |n.keyVel| == |n.internalVel| == |n.outVel| == |n.layout.defs|
    && (forall m: nat :: ManualShape(n, m))
    && (forall c: nat :: CouplerShape(n, c))
  }

  // (c, k) names input key k of coupler c; (c, j) with IsOutput names output key j.
  predicate IsInput(l: Layout, c: nat, k: nat) {
    c < |l.defs| && l.defs[c].src < |l.manuals| && k < l.manuals[l.defs[c].src].keys
  }

  predicate IsOutput(l: Layout, c: nat, j: nat) {
    c < |l.defs| && !l.defs[c].unisonOff && l.defs[c].dest < |l.manuals| && j < l.manuals[l.defs[c].dest].keys
  }

  // ---------- what is computed from what ----------

  // May coupler `d` take over a velocity that arrived through a coupler with flags `f`?
  predicate Permits(f: Flags, d: CouplerDef) {
    || (f.unisonInter && d.destKeyshift == 0)
    || (f.downIntra && d.destKeyshift < 0 && !d.IsIntermanual())
    || (f.upIntra && d.destKeyshift > 0 && !d.IsIntermanual())
    || (f.downInter && d.destKeyshift < 0 && d.IsIntermanual())
    || (f.upInter && d.destKeyshift > 0 && d.IsIntermanual())
  }

  ghost predicate Permitted(l: Layout, flags: seq<Flags>, c: nat, i: nat)
    requires Wired(l) && |flags| == |l.defs| && c < |l.defs|
    requires WiredCoupler(l, c)
    requires i <= |l.manuals[l.defs[c].src].inputs|
  {
    i == 0 ||
    (assert WiredManual(l, l.defs[c].src);
     Permits(flags[l.manuals[l.defs[c].src].inputs[i - 1]], l.defs[c]))
  }

  // The largest of the first `upto` slot values that coupler c may take over.
  ghost function MaxPermitted(l: Layout, flags: seq<Flags>, c: nat, row: seq<nat>, upto: nat): (r: nat)
    requires Wired(l) && |flags| == |l.defs| && c < |l.defs| && WiredCoupler(l, c)
    requires upto <= |row| == 1 + |l.manuals[l.defs[c].src].inputs|
    ensures forall i {:trigger row[i]} :: 0 <= i < upto && Permitted(l, flags, c, i) ==> row[i] <= r
    ensures r == 0 || exists i {:trigger row[i]} :: 0 <= i < upto && Permitted(l, flags, c, i) && row[i] == r
  {
    if upto == 0 then 0
    else
      var rest := MaxPermitted(l, flags, c, row, upto - 1);
      if Permitted(l, flags, c, upto - 1) && row[upto - 1] > rest then row[upto - 1] else rest
  }

  // The largest of row[from..upto].
  function MaxRange(row: seq<nat>, from: nat, upto: nat): (r: nat)
    requires from <= upto <= |row|
    ensures forall i :: from <= i < upto ==> row[i] <= r
    ensures r == 0 || exists i :: from <= i < upto && row[i] == r
  {
    if upto == from then 0
    else
      var rest := MaxRange(row, from, upto - 1);
      if rest < row[upto - 1] then row[upto - 1] else rest
  }

  function Pred(v: nat): nat {
    if v == 0 then 0 else v - 1
  }

  function Encode(velocity: nat): nat {
    if velocity == 0 then 0 else velocity * 4 + 3
  }

  // ---------- agreement, entry by entry ----------

  ghost function Wanted(n: Net, c: nat, k: nat): nat
    requires Shape(n) && IsInput(n.layout, c, k)
  {
    assert WiredCoupler(n.layout, c) && ManualShape(n, n.layout.defs[c].src);
    var row := n.slots[n.layout.defs[c].src][k];
    MaxPermitted(n.layout, n.flags, c, row, |row|)
  }

  // The coupler has seen the current slot values of this key.
  ghost predicate Clean(n: Net, c: nat, k: nat)
    requires Shape(n)
  {
    IsInput(n.layout, c, k) && n.layout.defs[c].InWindow(k) ==>
      assert CouplerShape(n, c);
      n.keyVel[c][k] == Wanted(n, c, k)
  }

  ghost predicate Idle(n: Net, c: nat, k: nat)
    requires Shape(n)
  {
    IsInput(n.layout, c, k) && !n.layout.defs[c].InWindow(k) ==>
      assert CouplerShape(n, c);
      n.keyVel[c][k] == 0
  }

  ghost predicate Linked(n: Net, c: nat, j: nat)
    requires Shape(n)
  {
    IsOutput(n.layout, c, j) ==>
      assert CouplerShape(n, c) && WiredCoupler(n.layout, c);
      var k := j - n.layout.defs[c].keyshift;
      n.internalVel[c][j] == if 0 <= k < |n.keyVel[c]| then n.keyVel[c][k] else 0
  }

  ghost function OutTarget(n: Net, c: nat, j: nat): nat
    requires Shape(n) && IsOutput(n.layout, c, j)
  {
    assert CouplerShape(n, c);
    if n.engaged[c] then Pred(n.internalVel[c][j]) else 0
  }

  ghost predicate OutClean(n: Net, c: nat, j: nat)
    requires Shape(n)
  {
    IsOutput(n.layout, c, j) ==>
      assert CouplerShape(n, c);
      n.outVel[c][j] == OutTarget(n, c, j)
  }

  ghost predicate SlotSync(n: Net, c: nat, j: nat)
    requires Shape(n)
  {
    IsOutput(n.layout, c, j) ==>
      assert CouplerShape(n, c) && WiredCoupler(n.layout, c) && ManualShape(n, n.layout.defs[c].dest);
      n.slots[n.layout.defs[c].dest][j][n.layout.defs[c].index] == n.outVel[c][j]
  }

  ghost predicate TotalSync(n: Net, m: nat, k: nat)
    requires Shape(n)
  {
    IsKey(n.layout, m, k) ==>
      assert ManualShape(n, m);
      var row := n.slots[m][k];
      n.total[m][k] == MaxRange(row, 0, |row|) && n.remote[m][k] == MaxRange(row, 1, |row|)
  }

  // What the stops of a manual should be told about a key.
  ghost function Sounding(n: Net, m: nat, k: nat): nat
    requires Shape(n) && IsKey(n.layout, m, k)
  {
    assert ManualShape(n, m);
    (if n.unison[m] > 0 then n.remote[m][k] else n.total[m][k]) / 4
  }

  ghost predicate DivClean(n: Net, m: nat, k: nat)
    requires Shape(n)
  {
    IsKey(n.layout, m, k) ==>
      assert ManualShape(n, m);
      n.division[m][k] == Sounding(n, m, k)
  }

  // The stops have been told one of the two maxima, be it the right one or not.
  ghost predicate DivKnown(n: Net, m: nat, k: nat)
    requires Shape(n)
  {
    IsKey(n.layout, m, k) ==>
      assert ManualShape(n, m);
      n.division[m][k] == n.total[m][k] / 4 || n.division[m][k] == n.remote[m][k] / 4
  }

  // Slot 0 holds the encoded velocity of the accessible key that sits on it.
  ghost predicate HeldSync(n: Net, m: nat, k: nat)
    requires Shape(n)
  {
    IsKey(n.layout, m, k) ==>
      assert ManualShape(n, m) && WiredManual(n.layout, m);
      var a := k - (n.layout.manuals[m].firstLogical - 1);
      n.slots[m][k][0] == if 0 <= a < |n.held[m]| then Encode(n.held[m][a]) else 0
  }

  // ---------- invariants of a running cascade ----------

  // In an upward cascade every stored number is at most what it should become, in a
  // downward one at least.
  ghost predicate Directed(n: Net, up: bool, c: nat, k: nat)
    requires Shape(n)
  {
    IsInput(n.layout, c, k) && n.layout.defs[c].InWindow(k) ==>
      assert CouplerShape(n, c);
      if up then n.keyVel[c][k] <= Wanted(n, c, k) else n.keyVel[c][k] >= Wanted(n, c, k)
  }

  ghost predicate OutDirected(n: Net, up: bool, c: nat, j: nat)
    requires Shape(n)
  {
    IsOutput(n.layout, c, j) ==>
      assert CouplerShape(n, c);
      if up then n.outVel[c][j] <= OutTarget(n, c, j) else n.outVel[c][j] >= OutTarget(n, c, j)
  }

  ghost predicate RowBounded(n: Net, bound: nat, m: nat, k: nat)
    requires Shape(n)
  {
    IsKey(n.layout, m, k) ==>
      assert ManualShape(n, m);
      forall i :: 0 <= i < |n.slots[m][k]| ==> n.slots[m][k][i] <= bound
  }

  // Holds whenever no write is pending, even in the middle of a cascade.
  ghost predicate Running(n: Net, up: bool, bound: nat)
  {
    && Shape(n)
    && (forall c: nat, k: nat :: Idle(n, c, k))
    && (forall c: nat, k: nat :: Directed(n, up, c, k))
    && (forall c: nat, j: nat :: Linked(n, c, j))
    && (forall c: nat, j: nat :: OutDirected(n, up, c, j))
    && (forall c: nat, j: nat :: SlotSync(n, c, j))
    && (forall m: nat, k: nat :: TotalSync(n, m, k))
    && (forall m: nat, k: nat :: RowBounded(n, bound, m, k))
  }

  // As Running, but the value of one slot is still to be written: it must become `velocity`.
  ghost predicate SlotPending(n: Net, up: bool, bound: nat, m: nat, k: nat, i: nat, velocity: nat)
  {
    && Shape(n)
    && (forall c: nat, k: nat :: Idle(n, c, k))
    && (forall c: nat, k: nat :: Directed(n, up, c, k))
    && (forall c: nat, j: nat :: Linked(n, c, j))
    && (forall c: nat, j: nat :: OutDirected(n, up, c, j))
    && (forall m: nat, k: nat :: TotalSync(n, m, k))
    && (forall m: nat, k: nat :: RowBounded(n, bound, m, k))
    && velocity <= bound
    && IsManual(n.layout, m)
    && ManualShape(n, m)
    && i <= |n.layout.manuals[m].inputs|
    && (IsKey(n.layout, m, k) ==>
          if up then n.slots[m][k][i] <= velocity else n.slots[m][k][i] >= velocity)
    && (i > 0 ==>
          assert WiredManual(n.layout, m);
          var c := n.layout.manuals[m].inputs[i - 1];
          IsOutput(n.layout, c, k) && assert CouplerShape(n, c); n.outVel[c][k] == velocity)
    && (forall c: nat, j: nat :: IsSlot(n.layout, c, j, m, k, i) || SlotSync(n, c, j))
  }

  predicate IsSlot(l: Layout, c: nat, j: nat, m: nat, k: nat, i: nat) {
    c < |l.defs| && l.defs[c].dest == m && l.defs[c].index == i && j == k
  }

  ghost predicate SameSwitches(a: Net, b: Net) {
    a.layout == b.layout && a.flags == b.flags && a.engaged == b.engaged && a.unison == b.unison
  }

  ghost predicate SameRow(a: Net, b: Net, m: nat, k: nat)
    requires Shape(a) && Shape(b) && a.layout == b.layout
  {
    IsKey(a.layout, m, k) ==>
      assert ManualShape(a, m) && ManualShape(b, m);
      a.slots[m][k] == b.slots[m][k]
  }

  ghost predicate SameDivision(a: Net, b: Net, m: nat, k: nat)
    requires Shape(a) && Shape(b) && a.layout == b.layout
  {
    IsKey(a.layout, m, k) ==>
      assert ManualShape(a, m) && ManualShape(b, m);
      a.division[m][k] == b.division[m][k]
  }

  // All slots of a key have moved one way, if at all.
  ghost predicate RowMoves(a: Net, b: Net, up: bool, m: nat, k: nat)
    requires Shape(a) && Shape(b) && a.layout == b.layout
  {
    IsKey(a.layout, m, k) ==>
      assert ManualShape(a, m) && ManualShape(b, m);
      forall i :: 0 <= i < |a.slots[m][k]| ==>
        if up then a.slots[m][k][i] <= b.slots[m][k][i] else a.slots[m][k][i] >= b.slots[m][k][i]
  }

  // What a piece of a cascade may do: it never spoils an entry that agreed, and it leaves
  // every coupler and division of a key whose slots it changed in agreement.  All slots move
  // one way, and the division of a key whose slots it has not changed it has left alone.
  ghost predicate Step(a: Net, b: Net, up: bool, bound: nat)
    requires Shape(a) && Shape(b)
  {
    && SameSwitches(a, b)
    && a.held == b.held
    && (forall c: nat, k: nat :: Clean(a, c, k) ==> Clean(b, c, k))
    && (forall c: nat, k: nat {:trigger Clean(b, c, k)} ::
       c < |a.layout.defs| && !SameRow(a, b, a.layout.defs[c].src, k) ==> Clean(b, c, k))
    && (forall c: nat, j: nat :: OutClean(a, c, j) ==> OutClean(b, c, j))
    && (forall m: nat, k: nat :: DivClean(a, m, k) ==> DivClean(b, m, k))
    && (forall m: nat, k: nat {:trigger DivClean(b, m, k)} :: !SameRow(a, b, m, k) ==> DivClean(b, m, k))
    && (forall m: nat, k: nat :: RowMoves(a, b, up, m, k))
    && (forall m: nat, k: nat {:trigger SameDivision(a, b, m, k)} :: SameRow(a, b, m, k) ==> SameDivision(a, b, m, k))
    && Measure(b.slots, up, bound) <= Measure(a.slots, up, bound)
  }

  ghost predicate SameKeyboardSlots(a: Net, b: Net)
    requires Shape(a) && Shape(b)
  {
    && a.layout == b.layout
    && forall m: nat, k: nat :: KeyboardSlot(b, m, k) == KeyboardSlot(a, m, k)
  }

  ghost function KeyboardSlot(n: Net, m: nat, k: nat): nat
    requires Shape(n)
  {
    if IsKey(n.layout, m, k) then assert ManualShape(n, m); n.slots[m][k][0] else 0
  }

  lemma StepTransitive(a: Net, b: Net, c: Net, up: bool, bound: nat)
    requires Shape(a) && Shape(b) && Shape(c)
    requires Step(a, b, up, bound) && Step(b, c, up, bound)
    ensures Step(a, c, up, bound)
  {
    forall i: nat, k: nat | i < |a.layout.defs| && !SameRow(a, c, a.layout.defs[i].src, k)
      ensures Clean(c, i, k)
    {
      assert Clean(b, i, k) || Clean(c, i, k);
    }
    forall m: nat, k: nat | !SameRow(a, c, m, k)
      ensures DivClean(c, m, k)
    {
      assert DivClean(b, m, k) || DivClean(c, m, k);
    }
    forall m: nat, k: nat ensures RowMoves(a, c, up, m, k) && (SameRow(a, c, m, k) ==> SameDivision(a, c, m, k)) {
      RowBetween(a, b, c, up, m, k);
      assert SameRow(a, b, m, k) ==> SameDivision(a, b, m, k);
      assert SameRow(b, c, m, k) ==> SameDivision(b, c, m, k);
    }
  }

  // A row that comes back to where it was has not moved in between.
  lemma RowBetween(a: Net, b: Net, c: Net, up: bool, m: nat, k: nat)
    requires Shape(a) && Shape(b) && Shape(c) && a.layout == b.layout == c.layout
    requires RowMoves(a, b, up, m, k) && RowMoves(b, c, up, m, k)
    ensures RowMoves(a, c, up, m, k)
    ensures SameRow(a, c, m, k) ==> SameRow(a, b, m, k) && SameRow(b, c, m, k)
  {
    if IsKey(a.layout, m, k) {
      assert ManualShape(a, m) && ManualShape(b, m) && ManualShape(c, m);
      var p, q, r := a.slots[m][k], b.slots[m][k], c.slots[m][k];
      assert |p| == |q| == |r|;
    }
  }

  // ---------- the termination measure ----------

  function Gap(v: nat, up: bool, bound: nat): nat {
    if !up then v else if v <= bound then bound - v else 0
  }

  function RowMeasure(row: seq<nat>, up: bool, bound: nat): nat {
    if row == [] then 0 else Gap(row[0], up, bound) + RowMeasure(row[1..], up, bound)
  }

  function RowsMeasure(rows: seq<seq<nat>>, up: bool, bound: nat): nat {
    if rows == [] then 0 else RowMeasure(rows[0], up, bound) + RowsMeasure(rows[1..], up, bound)
  }

  // How far all slots together are from the end of the cascade.
  function Measure(slots: seq<seq<seq<nat>>>, up: bool, bound: nat): nat {
    if slots == [] then 0 else RowsMeasure(slots[0], up, bound) + Measure(slots[1..], up, bound)
  }

  lemma {:induction false} RowMeasureUpdate(row: seq<nat>, up: bool, bound: nat, i: nat, v: nat)
    requires i < |row|
    ensures RowMeasure(row[i := v], up, bound)
            == RowMeasure(row, up, bound) - Gap(row[i], up, bound) + Gap(v, up, bound)
  {
    if i == 0 {
      assert row[i := v][1..] == row[1..];
    } else {
      assert row[i := v][1..] == row[1..][i - 1 := v];
      RowMeasureUpdate(row[1..], up, bound, i - 1, v);
    }
  }

  lemma {:induction false} RowsMeasureUpdate(rows: seq<seq<nat>>, up: bool, bound: nat, i: nat, row: seq<nat>)
    requires i < |rows|
    ensures RowsMeasure(rows[i := row], up, bound) ==
            RowsMeasure(rows, up, bound) - RowMeasure(rows[i], up, bound) + RowMeasure(row, up, bound)
  {
    if i == 0 {
      assert rows[i := row][1..] == rows[1..];
    } else {
      assert rows[i := row][1..] == rows[1..][i - 1 := row];
      RowsMeasureUpdate(rows[1..], up, bound, i - 1, row);
    }
  }

  lemma {:induction false} MeasureUpdate(slots: seq<seq<seq<nat>>>, up: bool, bound: nat, i: nat, rows: seq<seq<nat>>)
    requires i < |slots|
    ensures Measure(slots[i := rows], up, bound) ==
            Measure(slots, up, bound) - RowsMeasure(slots[i], up, bound) + RowsMeasure(rows, up, bound)
  {
    if i == 0 {
      assert slots[i := rows][1..] == slots[1..];
    } else {
      assert slots[i := rows][1..] == slots[1..][i - 1 := rows];
      MeasureUpdate(slots[1..], up, bound, i - 1, rows);
    }
  }
}
