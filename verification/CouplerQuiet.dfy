// The coupler network at rest: what every settled state satisfies, and how each event
// (a key, a coupler switch, a couple-through switch, a unison-off switch) starts a cascade
// from one settled state whose end is the next one.
module CouplerQuiet {
  import opened Arithmetic
  import opened CouplerNet
  import opened CouplerCascade
  import opened Sets

  // The unison-off couplers of manual m that are engaged.
  ghost function UnisonOffs(l: Layout, engaged: seq<bool>, m: nat): set<nat>
    requires |engaged| == |l.defs|
  {
    set c: nat | c < |l.defs| && l.defs[c].unisonOff && l.defs[c].src == m && engaged[c]
  }

  ghost function EngagedUnisonOff(n: Net, m: nat): set<nat>
    requires |n.engaged| == |n.layout.defs|
  {
    UnisonOffs(n.layout, n.engaged, m)
  }

  ghost predicate CounterSync(n: Net, m: nat)
    requires Shape(n)
  {
    IsManual(n.layout, m) ==> n.unison[m] == |EngagedUnisonOff(n, m)|
  }

  // The counter is an unsigned 32-bit number.
  ghost predicate CounterFits(n: Net, m: nat)
    requires Shape(n)
  {
    IsManual(n.layout, m) ==> n.unison[m] < WORD
  }

  // Everything but the agreement of outputs and of divisions.
  ghost predicate Listening(n: Net) {
    && Shape(n)
    && (forall c: nat, k: nat :: Idle(n, c, k))
    && (forall c: nat, j: nat :: Linked(n, c, j))
    && (forall c: nat, j: nat :: SlotSync(n, c, j))
    && (forall m: nat, k: nat :: TotalSync(n, m, k))
  }

  // No call is in progress.  Slots, couplers and held keys agree; what the stops have been
  // told is one of the two maxima of each key.
  ghost predicate Resting(n: Net) {
    && Listening(n)
    && (forall c: nat, k: nat :: Clean(n, c, k))
    && (forall c: nat, j: nat :: OutClean(n, c, j))
    && (forall m: nat, k: nat :: HeldSync(n, m, k))
    && (forall m: nat, k: nat :: DivKnown(n, m, k))
    && (forall m: nat :: CounterFits(n, m))
  }

  // Moreover the unison-off couplers are counted and the stops have been told the right
  // maximum: every stored number is what it should be.
  ghost predicate Quiescent(n: Net) {
    && Resting(n)
    && (forall m: nat, k: nat :: DivClean(n, m, k))
    && (forall m: nat :: CounterSync(n, m))
  }

  // The counters stay, and the divisions that are right are those that were and those of the
  // keys whose slots have changed.
  ghost predicate DivisionsKept(a: Net, b: Net) {
    && Shape(a) && Shape(b) && a.layout == b.layout && SameUnison(a, b)
    && forall m: nat, k: nat {:trigger DivClean(b, m, k)} :: DivClean(b, m, k) <==>
       DivClean(a, m, k) || !SameRow(a, b, m, k)
  }

  ghost predicate SlotsMove(a: Net, b: Net, up: bool) {
    && Shape(a) && Shape(b) && a.layout == b.layout
    && forall m: nat, k: nat :: RowMoves(a, b, up, m, k)
  }

  lemma RestingShape(n: Net)
    requires Resting(n)
    ensures Shape(n)
  {
  }

  // ---------- a bound for any state ----------

  lemma {:induction false} RowSumBounds(row: seq<nat>, i: nat)
    requires i < |row|
    ensures row[i] <= RowMeasure(row, false, 0)
  {
    if i > 0 {
      RowSumBounds(row[1..], i - 1);
    }
  }

  lemma {:induction false} RowsSumBounds(rows: seq<seq<nat>>, k: nat)
    requires k < |rows|
    ensures RowMeasure(rows[k], false, 0) <= RowsMeasure(rows, false, 0)
  {
    if k > 0 {
      RowsSumBounds(rows[1..], k - 1);
    }
  }

  lemma {:induction false} SumBounds(slots: seq<seq<seq<nat>>>, m: nat)
    requires m < |slots|
    ensures RowsMeasure(slots[m], false, 0) <= Measure(slots, false, 0)
  {
    if m > 0 {
      SumBounds(slots[1..], m - 1);
    }
  }

  // The sum of all slots bounds every slot.
  lemma SlotsBounded(n: Net, bound: nat)
    requires Shape(n) && Measure(n.slots, false, 0) <= bound
    ensures forall m: nat, k: nat :: RowBounded(n, bound, m, k)
  {
    forall m: nat, k: nat ensures RowBounded(n, bound, m, k) {
      if IsKey(n.layout, m, k) {
        assert ManualShape(n, m);
        forall i | 0 <= i < |n.slots[m][k]| ensures n.slots[m][k][i] <= bound {
          RowSumBounds(n.slots[m][k], i);
          RowsSumBounds(n.slots[m], k);
          SumBounds(n.slots, m);
        }
      }
    }
  }

  // ---------- the end of a cascade ----------

  lemma Settled(a: Net, b: Net, up: bool, bound: nat)
    requires Running(b, up, bound)
    requires Shape(a) && Step(a, b, up, bound)
    requires forall c: nat, k: nat :: Clean(b, c, k)
    requires forall c: nat, j: nat :: OutClean(b, c, j)
    requires forall m: nat, k: nat :: TotalSync(a, m, k) && DivKnown(a, m, k)
    requires forall m: nat, k: nat :: HeldSync(b, m, k)
    requires forall m: nat :: CounterFits(a, m)
    ensures Resting(b) && DivisionsKept(a, b) && SlotsMove(a, b, up)
  {
    forall m: nat ensures CounterFits(b, m) {
      assert CounterFits(a, m);
    }
    forall m: nat, k: nat
      ensures DivKnown(b, m, k) && (DivClean(b, m, k) <==> DivClean(a, m, k) || !SameRow(a, b, m, k))
    {
      StillKnown(a, b, up, bound, m, k);
    }
  }

  // A division that a cascade leaves alone belongs to a key whose maxima are as before.
  lemma StillKnown(a: Net, b: Net, up: bool, bound: nat, m: nat, k: nat)
    requires Running(b, up, bound)
    requires Shape(a) && Step(a, b, up, bound) && TotalSync(a, m, k) && DivKnown(a, m, k)
    ensures DivKnown(b, m, k) && (DivClean(b, m, k) <==> DivClean(a, m, k) || !SameRow(a, b, m, k))
  {
    if IsKey(a.layout, m, k) {
      assert ManualShape(a, m) && ManualShape(b, m) && TotalSync(b, m, k);
      if SameRow(a, b, m, k) {
        assert SameDivision(a, b, m, k) && b.total[m][k] == a.total[m][k] && b.remote[m][k] == a.remote[m][k];
      } else {
        assert DivClean(b, m, k);
      }
    }
  }

  lemma SameRowsKept(a: Net, b: Net, up: bool)
    requires Shape(a) && Shape(b) && a.layout == b.layout && SameUnison(a, b)
    requires a.slots == b.slots && a.total == b.total && a.remote == b.remote && a.division == b.division
    ensures DivisionsKept(a, b) && SlotsMove(a, b, up)
  {
    forall m: nat, k: nat
      ensures SameRow(a, b, m, k) && RowMoves(a, b, up, m, k) && DivClean(a, m, k) == DivClean(b, m, k)
    {
      assert ManualShape(a, m) && ManualShape(b, m);
    }
  }

  lemma KeptTwice(a: Net, b: Net, c: Net, up: bool)
    requires DivisionsKept(a, b) && DivisionsKept(b, c) && SlotsMove(a, b, up) && SlotsMove(b, c, up)
    ensures DivisionsKept(a, c) && SlotsMove(a, c, up)
  {
    forall m: nat, k: nat
      ensures RowMoves(a, c, up, m, k) && (DivClean(c, m, k) <==> DivClean(a, m, k) || !SameRow(a, c, m, k))
    {
      RowBetween(a, b, c, up, m, k);
      assert DivClean(c, m, k) <==> DivClean(b, m, k) || !SameRow(b, c, m, k);
      assert DivClean(b, m, k) <==> DivClean(a, m, k) || !SameRow(a, b, m, k);
      if SameRow(a, b, m, k) && SameRow(b, c, m, k) {
        SameRowTwice(a, b, c, m, k);
      }
    }
  }

  lemma SameRowTwice(a: Net, b: Net, c: Net, m: nat, k: nat)
    requires Shape(a) && Shape(b) && Shape(c) && a.layout == b.layout == c.layout
    requires SameRow(a, b, m, k) && SameRow(b, c, m, k)
    ensures SameRow(a, c, m, k)
  {
  }

  // Slot 0 is left alone by every cascade but the one that a key starts.
  lemma HeldKept(a: Net, b: Net)
    requires Shape(a) && Shape(b) && SameKeyboardSlots(a, b) && a.held == b.held
    requires forall m: nat, k: nat :: HeldSync(a, m, k)
    ensures forall m: nat, k: nat :: HeldSync(b, m, k)
  {
    forall m: nat, k: nat ensures HeldSync(b, m, k) {
      assert HeldSync(a, m, k) && KeyboardSlot(b, m, k) == KeyboardSlot(a, m, k);
    }
  }

  // ---------- a key ----------

  function StoreHeld(n: Net, m: nat, a: nat, v: nat): Net
    requires m < |n.held| && a < |n.held[m]|
  {
    n.(held := Put(n.held, m, a, v))
  }

  lemma KeyStarts(n: Net, m: nat, a: nat, v: nat, bound: nat)
    requires Resting(n) && IsManual(n.layout, m) && ManualShape(n, m) && a < |n.held[m]|
    requires bound == Measure(n.slots, false, 0) + Encode(v)
    ensures var b := StoreHeld(n, m, a, v);
            var k := a + n.layout.manuals[m].firstLogical - 1;
            WiredManual(n.layout, m) && k >= 0 &&
            SlotPending(b, KeyGoesUp(n, m, k, v), bound, m, k, 0, Encode(v))
  {
    assert WiredManual(n.layout, m);
    var b := StoreHeld(n, m, a, v);
    var k := a + n.layout.manuals[m].firstLogical - 1;
    var up := KeyGoesUp(n, m, k, v);
    HeldShape(n, b);
    SlotsBounded(n, bound);
    HeldIrrelevant(n, b, up, bound);
    forall c: nat, kk: nat ensures Directed(b, up, c, kk) {
      assert Clean(n, c, kk) && Clean(b, c, kk) == Clean(n, c, kk);
    }
    forall c: nat, j: nat ensures OutDirected(b, up, c, j) {
      assert OutClean(n, c, j) && OutClean(b, c, j) == OutClean(n, c, j);
    }
    assert ManualShape(b, m);
  }

  ghost predicate KeyGoesUp(n: Net, m: nat, k: nat, v: nat)
    requires Shape(n)
  {
    v > 0 && KeyboardSlot(n, m, k) <= Encode(v)
  }

  lemma HeldShape(n: Net, b: Net)
    requires Shape(n) && b == n.(held := b.held) && |b.held| == |n.held|
    requires forall m :: 0 <= m < |n.held| ==> |b.held[m]| == |n.held[m]|
    ensures Shape(b)
  {
    forall m: nat ensures ManualShape(b, m) {
      assert ManualShape(n, m);
    }
    forall c: nat ensures CouplerShape(b, c) {
      assert CouplerShape(n, c);
    }
  }

  lemma HeldIrrelevant(n: Net, b: Net, up: bool, bound: nat)
    requires Shape(n) && Shape(b) && b == n.(held := b.held)
    ensures forall c: nat, k: nat :: Clean(b, c, k) == Clean(n, c, k) && Idle(b, c, k) == Idle(n, c, k)
    ensures forall c: nat, j: nat :: OutClean(b, c, j) == OutClean(n, c, j) && Linked(b, c, j) == Linked(n, c, j)
    ensures forall c: nat, j: nat :: SlotSync(b, c, j) == SlotSync(n, c, j)
    ensures forall m: nat, k: nat :: DivClean(b, m, k) == DivClean(n, m, k) && DivKnown(b, m, k) == DivKnown(n, m, k)
    ensures forall m: nat, k: nat :: TotalSync(b, m, k) == TotalSync(n, m, k)
    ensures forall m: nat, k: nat :: RowBounded(b, bound, m, k) == RowBounded(n, bound, m, k)
    ensures forall m: nat, k: nat :: KeyboardSlot(b, m, k) == KeyboardSlot(n, m, k)
    ensures forall m: nat :: CounterFits(b, m) == CounterFits(n, m)
  {
  }

  lemma KeySettles(n: Net, m: nat, a: nat, v: nat, e: Net, up: bool, bound: nat)
    requires Resting(n) && IsManual(n.layout, m) && ManualShape(n, m) && a < |n.held[m]| && WiredManual(n.layout, m)
    requires Shape(StoreHeld(n, m, a, v))
    requires Running(e, up, bound) && Step(StoreHeld(n, m, a, v), e, up, bound)
    requires forall mm: nat, kk: nat :: KeyboardSlot(e, mm, kk) ==
               if mm == m && kk == a + n.layout.manuals[m].firstLogical - 1 && IsKey(n.layout, mm, kk) then Encode(v)
               else KeyboardSlot(StoreHeld(n, m, a, v), mm, kk)
    ensures Resting(e) && DivisionsKept(n, e) && SlotsMove(n, e, up)
  {
    var b := StoreHeld(n, m, a, v);
    HeldIrrelevant(n, b, up, bound);
    forall c: nat, k: nat ensures Clean(e, c, k) {
      assert Clean(n, c, k) && Clean(b, c, k);
    }
    forall c: nat, j: nat ensures OutClean(e, c, j) {
      assert OutClean(n, c, j) && OutClean(b, c, j);
    }
    forall mm: nat, k: nat ensures TotalSync(b, mm, k) && DivKnown(b, mm, k) && HeldSync(e, mm, k) {
      assert TotalSync(n, mm, k) && DivKnown(n, mm, k) && HeldSync(n, mm, k)
             && KeyboardSlot(b, mm, k) == KeyboardSlot(n, mm, k);
      assert ManualShape(n, mm) && ManualShape(e, mm) && WiredManual(n.layout, mm);
      assert KeyboardSlot(e, mm, k) == KeyboardSlot(e, mm, k);
    }
    forall mm: nat ensures CounterFits(b, mm) {
      assert CounterFits(n, mm);
    }
    Settled(b, e, up, bound);
    SameRowsKept(n, b, up);
    KeptTwice(n, b, e, up);
  }

  // ---------- the switch of a normal coupler ----------

  function StoreEngaged(n: Net, c: nat, on: bool): Net
    requires c < |n.engaged|
  {
    n.(engaged := n.engaged[c := on])
  }

  lemma SwitchStarts(n: Net, c: nat, on: bool, bound: nat)
    requires Resting(n) && c < |n.layout.defs| && !n.layout.defs[c].unisonOff
    requires bound == Measure(n.slots, false, 0)
    ensures var b := StoreEngaged(n, c, on);
            && Running(b, on, bound)
            && (forall i: nat, k: nat :: Clean(b, i, k))
            && (forall i: nat, j: nat :: i != c ==> OutClean(b, i, j))
            && (forall m: nat, k: nat :: DivKnown(b, m, k) && HeldSync(b, m, k))
            && (forall m: nat :: CounterFits(b, m))
            && DivisionsKept(n, b) && SlotsMove(n, b, on)
  {
    var b := StoreEngaged(n, c, on);
    EngagedShape(n, c, on);
    SameRowsKept(n, b, on);
    SlotsBounded(n, bound);
    forall i: nat, k: nat ensures Clean(b, i, k) && Idle(b, i, k) && Directed(b, on, i, k) {
      assert Clean(n, i, k) && Idle(n, i, k);
    }
    forall i: nat, j: nat
      ensures Linked(b, i, j) && SlotSync(b, i, j) && OutDirected(b, on, i, j) && (i != c ==> OutClean(b, i, j))
    {
      assert Linked(n, i, j) && SlotSync(n, i, j) && OutClean(n, i, j);
    }
    forall m: nat, k: nat
      ensures TotalSync(b, m, k) && RowBounded(b, bound, m, k) && DivKnown(b, m, k) && HeldSync(b, m, k)
    {
      assert TotalSync(n, m, k) && RowBounded(n, bound, m, k) && DivKnown(n, m, k) && HeldSync(n, m, k);
    }
    forall m: nat ensures CounterFits(b, m) {
      assert CounterFits(n, m);
    }
  }

  lemma EngagedShape(n: Net, c: nat, on: bool)
    requires Shape(n) && c < |n.layout.defs|
    ensures Shape(StoreEngaged(n, c, on))
  {
    var b := StoreEngaged(n, c, on);
    forall m: nat ensures ManualShape(b, m) {
      assert ManualShape(n, m);
    }
    forall i: nat ensures CouplerShape(b, i) {
      assert CouplerShape(n, i);
    }
  }

  lemma SwitchSettles(b: Net, e: Net, c: nat, on: bool, bound: nat)
    requires Running(b, on, bound) && Running(e, on, bound) && Step(b, e, on, bound) && SameKeyboardSlots(b, e)
    requires forall i: nat, k: nat :: Clean(b, i, k)
    requires forall i: nat, j: nat :: i != c ==> OutClean(b, i, j)
    requires forall m: nat, k: nat :: DivKnown(b, m, k) && HeldSync(b, m, k)
    requires forall m: nat :: CounterFits(b, m)
    requires forall j: nat :: OutClean(e, c, j)
    ensures Resting(e) && DivisionsKept(b, e) && SlotsMove(b, e, on)
  {
    HeldKept(b, e);
    forall i: nat, j: nat ensures OutClean(e, i, j) {
      assert i == c || OutClean(b, i, j);
    }
    forall i: nat, k: nat ensures Clean(e, i, k) {
      assert Clean(b, i, k);
    }
    Settled(b, e, on, bound);
  }

  // ---------- the couple-through switch ----------

  function StoreFlags(n: Net, c: nat, f: Flags): Net
    requires c < |n.flags|
  {
    n.(flags := n.flags[c := f])
  }

  // Turning all settings of coupler c on (or off) can only widen (or narrow) what others may
  // take over, and only where c drives a key.
  lemma ThroughStarts(n: Net, c: nat, on: bool, bound: nat)
    requires Resting(n) && c < |n.layout.defs| && !n.layout.defs[c].unisonOff
    requires bound == Measure(n.slots, false, 0)
    ensures CouplerShape(n, c)
    ensures var b := StoreFlags(n, c, AllFlags(on));
            && Running(b, on, bound)
            && (forall i: nat, k: nat ::
                  (i < |n.layout.defs| && n.layout.defs[i].src == n.layout.defs[c].dest && k < |n.outVel[c]|
                    && n.outVel[c][k] > 0) || Clean(b, i, k))
            && (forall i: nat, j: nat :: OutClean(b, i, j))
            && (forall m: nat, k: nat :: DivKnown(b, m, k) && HeldSync(b, m, k))
            && (forall m: nat :: CounterFits(b, m))
            && DivisionsKept(n, b) && SlotsMove(n, b, on)
  {
    var b := StoreFlags(n, c, AllFlags(on));
    FlagsShape(n, c, AllFlags(on));
    SameRowsKept(n, b, on);
    SlotsBounded(n, bound);
    assert CouplerShape(n, c) && WiredCoupler(n.layout, c);
    forall i: nat, k: nat
      ensures Idle(b, i, k) && Directed(b, on, i, k)
      ensures (i < |n.layout.defs| && n.layout.defs[i].src == n.layout.defs[c].dest && k < |n.outVel[c]|
              && n.outVel[c][k] > 0) || Clean(b, i, k)
    {
      assert Idle(n, i, k) && Clean(n, i, k);
      if IsInput(n.layout, i, k) && n.layout.defs[i].InWindow(k) {
        ThroughWanted(n, c, on, i, k);
      }
    }
    forall i: nat, j: nat
      ensures Linked(b, i, j) && SlotSync(b, i, j) && OutDirected(b, on, i, j) && OutClean(b, i, j)
    {
      assert Linked(n, i, j) && SlotSync(n, i, j) && OutClean(n, i, j);
    }
    forall m: nat, k: nat
      ensures TotalSync(b, m, k) && RowBounded(b, bound, m, k) && DivKnown(b, m, k) && HeldSync(b, m, k)
    {
      assert TotalSync(n, m, k) && RowBounded(n, bound, m, k) && DivKnown(n, m, k) && HeldSync(n, m, k);
    }
    forall m: nat ensures CounterFits(b, m) {
      assert CounterFits(n, m);
    }
  }

  lemma FlagsShape(n: Net, c: nat, f: Flags)
    requires Shape(n) && c < |n.layout.defs|
    ensures Shape(StoreFlags(n, c, f))
  {
    var b := StoreFlags(n, c, f);
    forall m: nat ensures ManualShape(b, m) {
      assert ManualShape(n, m);
    }
    forall i: nat ensures CouplerShape(b, i) {
      assert CouplerShape(n, i);
    }
  }

  // Changing the settings of coupler c changes what may be heard of its own slot only.
  lemma ThroughPermitted(n: Net, c: nat, on: bool, i: nat, s: nat)
    requires Shape(n) && c < |n.layout.defs| && i < |n.layout.defs| && WiredCoupler(n.layout, i)
    requires s <= |n.layout.manuals[n.layout.defs[i].src].inputs|
    ensures var f := n.flags[c := AllFlags(on)];
            var before, after := Permitted(n.layout, n.flags, i, s), Permitted(n.layout, f, i, s);
            before != after ==> s > 0 && n.layout.manuals[n.layout.defs[i].src].inputs[s - 1] == c && (after <==> on)
  {
    assert WiredManual(n.layout, n.layout.defs[i].src);
    assert Permits(AllFlags(on), n.layout.defs[i]) <==> on;
  }

  lemma ThroughWanted(n: Net, c: nat, on: bool, i: nat, k: nat)
    requires Resting(n) && c < |n.layout.defs| && !n.layout.defs[c].unisonOff && CouplerShape(n, c)
    requires Shape(StoreFlags(n, c, AllFlags(on))) && IsInput(n.layout, i, k)
    ensures var b := StoreFlags(n, c, AllFlags(on));
            && (if on then Wanted(n, i, k) <= Wanted(b, i, k) else Wanted(n, i, k) >= Wanted(b, i, k))
            && (!(n.layout.defs[i].src == n.layout.defs[c].dest && k < |n.outVel[c]| && n.outVel[c][k] > 0) ==>
               Wanted(n, i, k) == Wanted(b, i, k))
  {
    var f := n.flags[c := AllFlags(on)];
    var src := n.layout.defs[i].src;
    assert WiredCoupler(n.layout, i) && WiredCoupler(n.layout, c) && WiredManual(n.layout, src) && ManualShape(n, src);
    var row := n.slots[src][k];
    var inputs := n.layout.manuals[src].inputs;
    var driven := src == n.layout.defs[c].dest && k < |n.outVel[c]| && n.outVel[c][k] > 0;
    forall s: nat | s < |row| && Permitted(n.layout, n.flags, i, s) != Permitted(n.layout, f, i, s)
      ensures Permitted(n.layout, f, i, s) == on
      ensures !driven ==> row[s] == 0
    {
      ThroughPermitted(n, c, on, i, s);
      assert n.layout.defs[inputs[s - 1]].dest == src;
      assert SlotSync(n, c, k);
    }
    ThroughMax(n.layout, n.flags, f, on, !driven, i, row);
  }

  lemma ThroughMax(l: Layout, f: seq<Flags>, g: seq<Flags>, on: bool, silent: bool, i: nat, row: seq<nat>)
    requires Wired(l) && |f| == |g| == |l.defs| && i < |l.defs| && WiredCoupler(l, i)
    requires |row| == 1 + |l.manuals[l.defs[i].src].inputs|
    requires forall s: nat {:trigger row[s]} :: s < |row| && Permitted(l, f, i, s) != Permitted(l, g, i, s) ==>
               Permitted(l, g, i, s) == on && (silent ==> row[s] == 0)
    ensures var before, after := MaxPermitted(l, f, i, row, |row|), MaxPermitted(l, g, i, row, |row|);
            && (if on then before <= after else before >= after)
            && (silent ==> before == after)
  {
    if on || silent {
      WiderMax(l, f, g, i, row);
    }
    if !on || silent {
      WiderMax(l, g, f, i, row);
    }
  }

  // Whoever may listen to more non-zero slots wants at least as much.
  lemma WiderMax(l: Layout, narrow: seq<Flags>, wide: seq<Flags>, i: nat, row: seq<nat>)
    requires Wired(l) && |narrow| == |wide| == |l.defs| && i < |l.defs| && WiredCoupler(l, i)
    requires |row| == 1 + |l.manuals[l.defs[i].src].inputs|
    requires forall s: nat {:trigger row[s]} :: s < |row| && Permitted(l, narrow, i, s) && row[s] > 0 ==>
             Permitted(l, wide, i, s)
    ensures MaxPermitted(l, narrow, i, row, |row|) <= MaxPermitted(l, wide, i, row, |row|)
  {
  }

  lemma ThroughSettles(b: Net, e: Net, c: nat, on: bool, bound: nat)
    requires Running(b, on, bound) && Running(e, on, bound) && Step(b, e, on, bound) && SameKeyboardSlots(b, e)
    requires c < |b.layout.defs|
    requires forall i: nat, j: nat :: OutClean(b, i, j)
    requires forall m: nat, k: nat :: DivKnown(b, m, k) && HeldSync(b, m, k)
    requires forall m: nat :: CounterFits(b, m)
    requires forall i: nat, k: nat :: Clean(e, i, k)
    ensures Resting(e) && DivisionsKept(b, e) && SlotsMove(b, e, on)
  {
    HeldKept(b, e);
    forall i: nat, j: nat ensures OutClean(e, i, j) {
      assert OutClean(b, i, j);
    }
    Settled(b, e, on, bound);
  }

  // ---------- the unison-off switch ----------

  // The effect of SetUnisonOff: the counter is an unsigned 32-bit number, and the divisions
  // are told only when it leaves or reaches zero.
  ghost function AfterUnison(n: Net, m: nat, on: bool): Net
    requires Shape(n) && IsManual(n.layout, m)
  {
    assert ManualShape(n, m);
    var was := n.unison[m];
    var now: nat := if on then (was + 1) % WORD else (was + WORD - 1) % WORD;
    var told := if on then was == 0 else now == 0;
    var source := if on then n.remote[m] else n.total[m];
    var rest: seq<nat> := seq(|n.division[m]|, k requires 0 <= k < |n.division[m]| => source[k] / 4);
    n.(unison := n.unison[m := now], division := if told then n.division[m := rest] else n.division)
  }

  lemma UnisonShape(n: Net, m: nat, on: bool)
    requires Shape(n) && IsManual(n.layout, m)
    ensures Shape(AfterUnison(n, m, on))
  {
    var b := AfterUnison(n, m, on);
    forall i: nat ensures ManualShape(b, i) {
      assert ManualShape(n, i);
    }
    forall c: nat ensures CouplerShape(b, c) {
      assert CouplerShape(n, c);
    }
  }

  // The counter would leave the range of its 32 bits.
  predicate Wraps(n: Net, m: nat, on: bool)
    requires m < |n.unison|
  {
    if on then n.unison[m] == WORD - 1 else n.unison[m] == 0
  }

  // Whatever the counter does, slots, couplers and held keys do not depend on it.
  lemma UnisonRests(n: Net, m: nat, on: bool)
    requires Resting(n) && IsManual(n.layout, m)
    ensures Resting(AfterUnison(n, m, on))
  {
    var b := AfterUnison(n, m, on);
    UnisonShape(n, m, on);
    forall i: nat, k: nat ensures Idle(b, i, k) && Clean(b, i, k) {
      assert Idle(n, i, k) && Clean(n, i, k);
    }
    forall i: nat, j: nat ensures Linked(b, i, j) && SlotSync(b, i, j) && OutClean(b, i, j) {
      assert Linked(n, i, j) && SlotSync(n, i, j) && OutClean(n, i, j);
    }
    forall i: nat, k: nat ensures TotalSync(b, i, k) && HeldSync(b, i, k) && DivKnown(b, i, k) {
      assert TotalSync(n, i, k) && HeldSync(n, i, k) && DivKnown(n, i, k) && ManualShape(n, i);
    }
    forall i: nat ensures CounterFits(b, i) {
      assert CounterFits(n, i);
    }
  }

  // The counter leaves or reaches zero, so that the stops are told.
  predicate Tells(n: Net, m: nat, on: bool)
    requires m < |n.unison|
  {
    if on then n.unison[m] == 0 else n.unison[m] == 1
  }

  // Both maxima of a key sound the same.
  ghost predicate SoundsAlike(n: Net, m: nat, k: nat)
    requires Shape(n)
  {
    IsKey(n.layout, m, k) ==> assert ManualShape(n, m); n.total[m][k] / 4 == n.remote[m][k] / 4
  }

  // What counting does to a division: where the stops are told it is right afterwards; a
  // counter that wraps makes exactly those wrong that were right, but for keys whose two
  // maxima sound alike; otherwise nothing changes.
  lemma UnisonTells(n: Net, m: nat, on: bool, i: nat, k: nat)
    requires Resting(n) && IsManual(n.layout, m) && m < |n.unison|
    ensures Shape(AfterUnison(n, m, on)) && SameRow(n, AfterUnison(n, m, on), i, k)
    ensures DivClean(AfterUnison(n, m, on), i, k) <==>
            if i != m then DivClean(n, i, k)
            else if Tells(n, m, on) then true
            else if Wraps(n, m, on) then SoundsAlike(n, m, k) || !DivClean(n, m, k)
            else DivClean(n, m, k)
  {
    UnisonShape(n, m, on);
    assert ManualShape(n, i) && ManualShape(n, m) && CounterFits(n, m) && DivKnown(n, i, k);
    assert ManualShape(AfterUnison(n, m, on), i);
  }

  // The switch of a unison-off coupler is stored.
  lemma SwitchRests(n: Net, c: nat, on: bool)
    requires Resting(n) && c < |n.layout.defs| && n.layout.defs[c].unisonOff
    ensures Resting(StoreEngaged(n, c, on)) && DivisionsKept(n, StoreEngaged(n, c, on))
  {
    var b := StoreEngaged(n, c, on);
    EngagedShape(n, c, on);
    SameRowsKept(n, b, on);
    forall i: nat, k: nat ensures Idle(b, i, k) && Clean(b, i, k) {
      assert Idle(n, i, k) && Clean(n, i, k);
    }
    forall i: nat, j: nat ensures Linked(b, i, j) && SlotSync(b, i, j) && OutClean(b, i, j) {
      assert Linked(n, i, j) && SlotSync(n, i, j) && OutClean(n, i, j);
    }
    forall i: nat, k: nat ensures TotalSync(b, i, k) && HeldSync(b, i, k) && DivKnown(b, i, k) {
      assert TotalSync(n, i, k) && HeldSync(n, i, k) && DivKnown(n, i, k);
    }
    forall i: nat ensures CounterFits(b, i) {
      assert CounterFits(n, i);
    }
  }

  // The switch of a unison-off coupler: after it is thrown, counter and divisions are right.
  lemma UnisonSettles(n: Net, c: nat, on: bool)
    requires Quiescent(n) && c < |n.layout.defs| && n.layout.defs[c].unisonOff && n.engaged[c] != on
    ensures Shape(StoreEngaged(n, c, on)) && WiredCoupler(n.layout, c)
    ensures Quiescent(AfterUnison(StoreEngaged(n, c, on), n.layout.defs[c].src, on))
  {
    hide Resting;
    var m := n.layout.defs[c].src;
    RestingShape(n);
    assert WiredCoupler(n.layout, c);
    SwitchRests(n, c, on);
    var a := StoreEngaged(n, c, on);
    UnisonRests(a, m, on);
    UnisonShape(a, m, on);
    UnisonCount(n, c, on);
    forall i: nat, k: nat ensures DivClean(AfterUnison(a, m, on), i, k) {
      assert DivClean(n, i, k) && DivClean(a, i, k);
      UnisonTells(a, m, on, i, k);
    }
  }

  lemma UnisonCount(n: Net, c: nat, on: bool)
    requires Quiescent(n) && c < |n.layout.defs| && n.layout.defs[c].unisonOff && n.engaged[c] != on
    requires Shape(StoreEngaged(n, c, on)) && WiredCoupler(n.layout, c)
    requires Shape(AfterUnison(StoreEngaged(n, c, on), n.layout.defs[c].src, on))
    ensures forall i: nat :: CounterSync(AfterUnison(StoreEngaged(n, c, on), n.layout.defs[c].src, on), i)
    ensures n.unison[n.layout.defs[c].src] < WORD && (on ==> n.unison[n.layout.defs[c].src] < WORD - 1)
    ensures !on ==> n.unison[n.layout.defs[c].src] > 0
  {
    hide CouplerShape, WiredManual;
    RestingShape(n);
    var m := n.layout.defs[c].src;
    var a := StoreEngaged(n, c, on);
    var b := AfterUnison(a, m, on);
    assert CounterSync(n, m);
    CountChanges(n, c, on);
    forall i: nat ensures CounterSync(b, i) {
      assert CounterSync(n, i);
      assert EngagedUnisonOff(b, i) == EngagedUnisonOff(a, i);
    }
  }

  lemma AtMostAll(n: Net, m: nat)
    requires |n.engaged| == |n.layout.defs|
    ensures |EngagedUnisonOff(n, m)| <= |n.layout.defs|
  {
    SubsetSize(EngagedUnisonOff(n, m), Below(|n.layout.defs|));
  }

  // Throwing the switch of a unison-off coupler changes the count of its manual by one.
  lemma CountChanges(n: Net, c: nat, on: bool)
    requires |n.engaged| == |n.layout.defs| < WORD
    requires c < |n.layout.defs| && n.layout.defs[c].unisonOff && n.engaged[c] != on
    ensures var m, a := n.layout.defs[c].src, StoreEngaged(n, c, on);
            && |EngagedUnisonOff(a, m)| == |EngagedUnisonOff(n, m)| + (if on then 1 else -1)
            && |EngagedUnisonOff(a, m)| < WORD && |EngagedUnisonOff(n, m)| < WORD
            && (forall i: nat :: i != m ==> EngagedUnisonOff(a, i) == EngagedUnisonOff(n, i))
  {
    var m, a := n.layout.defs[c].src, StoreEngaged(n, c, on);
    var before, after := EngagedUnisonOff(n, m), EngagedUnisonOff(a, m);
    AtMostAll(n, m);
    AtMostAll(a, m);
    if on {
      assert c !in before && after == before + {c};
    } else {
      assert c in before && after == before - {c};
    }
    forall i: nat | i != m ensures EngagedUnisonOff(a, i) == EngagedUnisonOff(n, i) {
    }
  }

  // RefreshState tells the manual about a unison-off coupler although nothing has been
  // switched.  From a settled state that always makes the counter wrong: one too large if
  // the coupler is on; one too small, or wrapped round to the largest number, if it is off.
  lemma RefreshMiscounts(n: Net, c: nat)
    requires Quiescent(n) && c < |n.layout.defs| && n.layout.defs[c].unisonOff
    ensures WiredCoupler(n.layout, c)
    ensures var m := n.layout.defs[c].src;
            var b := AfterUnison(n, m, n.engaged[c]);
            Shape(b) && !CounterSync(b, m) && !Quiescent(b)
  {
    var m := n.layout.defs[c].src;
    assert WiredCoupler(n.layout, c);
    UnisonShape(n, m, n.engaged[c]);
    var b := AfterUnison(n, m, n.engaged[c]);
    assert CounterSync(n, m) && EngagedUnisonOff(b, m) == EngagedUnisonOff(n, m);
    var all := Below(|n.layout.defs|);
    SubsetSize(EngagedUnisonOff(n, m), all);
  }

  // ---------- events ----------

  // What the player controls: held keys, engaged couplers, couple-through settings.
  datatype Inputs = Inputs(held: seq<seq<nat>>, engaged: seq<bool>, flags: seq<Flags>)

  function InputsOf(n: Net): Inputs {
    Inputs(n.held, n.engaged, n.flags)
  }

  predicate NoKeyHeld(i: Inputs) {
    forall m, a :: 0 <= m < |i.held| && 0 <= a < |i.held[m]| ==> i.held[m][a] == 0
  }

  function AfterNote(l: Layout, i: Inputs, m: nat, midiNote: nat, v: nat): Inputs {
    if IsManual(l, m) && m < |i.held| && l.manuals[m].firstMidi <= midiNote < l.manuals[m].firstMidi + |i.held[m]|
    then i.(held := Put(i.held, m, midiNote - l.manuals[m].firstMidi, v))
    else i
  }

  function AfterSwitch(i: Inputs, c: nat, on: bool): Inputs {
    if c < |i.engaged| then i.(engaged := i.engaged[c := on]) else i
  }

  function AfterThrough(i: Inputs, c: nat, on: bool): Inputs {
    if c < |i.flags| then i.(flags := i.flags[c := AllFlags(on)]) else i
  }

  // All keys of a manual are released, one after the other.
  function AfterReleases(l: Layout, i: Inputs, m: nat, count: nat): Inputs
    requires IsManual(l, m)
  {
    if count == 0 then i
    else AfterNote(l, AfterReleases(l, i, m, count - 1), m, l.manuals[m].firstMidi + count - 1, 0)
  }

  function AfterRelease(l: Layout, i: Inputs, m: nat): Inputs
    requires IsManual(l, m)
  {
    AfterReleases(l, i, m, l.manuals[m].accessible)
  }

  lemma {:induction false} ReleasedIsSilent(l: Layout, i: Inputs, m: nat, count: nat)
    requires IsManual(l, m) && m < |i.held| && count <= |i.held[m]|
    ensures var r := AfterReleases(l, i, m, count);
            && r.engaged == i.engaged && r.flags == i.flags && |r.held| == |i.held|
            && (forall o :: 0 <= o < |i.held| && o != m ==> r.held[o] == i.held[o])
            && |r.held[m]| == |i.held[m]|
            && (forall a :: 0 <= a < |i.held[m]| ==> r.held[m][a] == if a < count then 0 else i.held[m][a])
  {
    if count > 0 {
      ReleasedIsSilent(l, i, m, count - 1);
    }
  }

  predicate SameUnison(a: Net, b: Net) {
    a.layout == b.layout && a.unison == b.unison
  }

  datatype Event =
    | Note(manual: nat, midiNote: nat, velocity: nat)
    | AllNotesOff(manual: nat)
    | Switch(coupler: nat, on: bool)
    | CoupleThrough(coupler: nat, on: bool)

  predicate Possible(l: Layout, e: Event) {
    match e
    case Note(m, _, _) => IsManual(l, m)
    case AllNotesOff(m) => IsManual(l, m)
    case Switch(c, _) => c < |l.defs|
    case CoupleThrough(c, _) => c < |l.defs|
  }

  function AfterEvent(l: Layout, i: Inputs, e: Event): Inputs
    requires Possible(l, e)
  {
    match e
    case Note(m, midiNote, v) => AfterNote(l, i, m, midiNote, v)
    case AllNotesOff(m) => AfterRelease(l, i, m)
    case Switch(c, on) => AfterSwitch(i, c, on)
    case CoupleThrough(c, on) => AfterThrough(i, c, on)
  }

  // ---------- the start ----------

  predicate Silent(rows: seq<seq<nat>>, r: nat) {
    r < |rows| ==> forall i {:trigger rows[r][i]} :: 0 <= i < |rows[r]| ==> rows[r][i] == 0
  }

  predicate AllSilent(rows: seq<seq<nat>>) {
    forall k: nat :: k < |rows| ==> Silent(rows, k)
  }

  ghost predicate SilentManual(n: Net, m: nat)
    requires Shape(n)
  {
    && Silent(n.held, m) && Silent(n.total, m) && Silent(n.remote, m) && Silent(n.division, m)
    && (m < |n.slots| ==> AllSilent(n.slots[m]))
  }

  ghost predicate SilentCoupler(n: Net, c: nat)
    requires Shape(n)
  {
    Silent(n.keyVel, c) && Silent(n.internalVel, c) && Silent(n.outVel, c)
  }

  lemma SilenceSettled(n: Net)
    requires Shape(n)
    requires forall m: nat :: SilentManual(n, m)
    requires forall c: nat :: SilentCoupler(n, c)
    requires forall m: nat :: CounterSync(n, m)
    ensures Quiescent(n)
  {
    forall c: nat, k: nat ensures Idle(n, c, k) && Clean(n, c, k) {
      SilentInput(n, c, k);
    }
    forall c: nat, j: nat ensures Linked(n, c, j) && OutClean(n, c, j) && SlotSync(n, c, j) {
      SilentOutput(n, c, j);
    }
    forall m: nat, k: nat ensures TotalSync(n, m, k) && DivClean(n, m, k) && DivKnown(n, m, k) && HeldSync(n, m, k) {
      SilentKey(n, m, k);
    }
    forall m: nat ensures CounterFits(n, m) {
      assert CounterSync(n, m);
      AtMostAll(n, m);
    }
  }

  lemma SilentInput(n: Net, c: nat, k: nat)
    requires Shape(n) && SilentCoupler(n, c) && (forall m: nat :: SilentManual(n, m))
    ensures Idle(n, c, k) && Clean(n, c, k)
  {
    if IsInput(n.layout, c, k) {
      var src := n.layout.defs[c].src;
      assert CouplerShape(n, c) && WiredCoupler(n.layout, c) && ManualShape(n, src) && SilentManual(n, src);
      assert Silent(n.slots[src], k);
    }
  }

  lemma SilentOutput(n: Net, c: nat, j: nat)
    requires Shape(n) && SilentCoupler(n, c) && (forall m: nat :: SilentManual(n, m))
    ensures Linked(n, c, j) && OutClean(n, c, j) && SlotSync(n, c, j)
  {
    if IsOutput(n.layout, c, j) {
      var dest := n.layout.defs[c].dest;
      assert CouplerShape(n, c) && WiredCoupler(n.layout, c) && ManualShape(n, dest) && SilentManual(n, dest);
      assert Silent(n.slots[dest], j);
    }
  }

  lemma SilentKey(n: Net, m: nat, k: nat)
    requires Shape(n) && SilentManual(n, m)
    ensures TotalSync(n, m, k) && DivClean(n, m, k) && HeldSync(n, m, k)
  {
    if IsKey(n.layout, m, k) {
      assert ManualShape(n, m) && WiredManual(n.layout, m);
      assert Silent(n.slots[m], k);
    }
  }

  // The unison-off couplers of manual m among the first `upto` couplers that are engaged.
  ghost function EngagedBelow(n: Net, m: nat, upto: nat): set<nat>
    requires |n.engaged| == |n.layout.defs|
  {
    set c: nat | c < |n.layout.defs| && n.layout.defs[c].unisonOff && n.layout.defs[c].src == m && n.engaged[c]
      && c < upto
  }

  lemma OneMoreBelow(n: Net, m: nat, c: nat)
    requires |n.engaged| == |n.layout.defs| && c < |n.layout.defs|
    ensures var more := n.layout.defs[c].unisonOff && n.layout.defs[c].src == m && n.engaged[c];
            |EngagedBelow(n, m, c + 1)| == |EngagedBelow(n, m, c)| + (if more then 1 else 0)
  {
    var lower, upper := EngagedBelow(n, m, c), EngagedBelow(n, m, c + 1);
    assert c !in lower && lower <= upper;
    if n.layout.defs[c].unisonOff && n.layout.defs[c].src == m && n.engaged[c] {
      assert upper == lower + {c};
    } else {
      assert upper == lower;
    }
  }

  lemma AtMostBelow(n: Net, m: nat, c: nat)
    requires |n.engaged| == |n.layout.defs|
    ensures |EngagedBelow(n, m, c)| <= c
  {
    SubsetSize(EngagedBelow(n, m, c), Below(c));
  }
}
