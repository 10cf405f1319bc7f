// The elementary writes of a cascade of the coupler network and what each of them keeps.
module CouplerCascade {
  import opened CouplerNet

  function Put(rows: seq<seq<nat>>, r: nat, i: nat, v: nat): seq<seq<nat>>
    requires r < |rows| && i < |rows[r]|
  {
    var row: seq<nat> := rows[r][i := v];
    rows[r := row]
  }

  // ---------- writing a slot of a manual ----------

  function StoreSlot(n: Net, m: nat, k: nat, i: nat, v: nat): Net
    requires m < |n.slots| && k < |n.slots[m]| && i < |n.slots[m][k]|
    requires m < |n.total| && k < |n.total[m]| && m < |n.remote| && k < |n.remote[m]|
  {
    var row := n.slots[m][k][i := v];
    n.(slots := n.slots[m := n.slots[m][k := row]],
       total := Put(n.total, m, k, MaxRange(row, 0, |row|)),
       remote := Put(n.remote, m, k, MaxRange(row, 1, |row|)))
  }

  lemma StoreSlotShape(n: Net, m: nat, k: nat, i: nat, v: nat)
    requires Shape(n) && IsKey(n.layout, m, k) && i <= |n.layout.manuals[m].inputs|
    ensures ManualShape(n, m) && Shape(StoreSlot(n, m, k, i, v))
  {
    assert ManualShape(n, m);
    var b := StoreSlot(n, m, k, i, v);
    forall mm: nat ensures ManualShape(b, mm) {
      assert ManualShape(n, mm);
    }
    forall c: nat ensures CouplerShape(b, c) {
      assert CouplerShape(n, c);
    }
  }

  lemma MaxPermittedMonotone(l: Layout, flags: seq<Flags>, c: nat, low: seq<nat>, high: seq<nat>)
    requires Wired(l) && |flags| == |l.defs| && c < |l.defs| && WiredCoupler(l, c)
    requires |low| == |high| == 1 + |l.manuals[l.defs[c].src].inputs|
    requires forall i :: 0 <= i < |low| ==> low[i] <= high[i]
    ensures MaxPermitted(l, flags, c, low, |low|) <= MaxPermitted(l, flags, c, high, |high|)
  {
  }

  // The value that arrives in a slot lies further in the direction of the cascade, so what
  // the couplers of that key should take over moves the same way.
  lemma StoreSlotDirected(n: Net, up: bool, bound: nat, m: nat, k: nat, i: nat, v: nat, c: nat, kk: nat)
    requires SlotPending(n, up, bound, m, k, i, v) && IsKey(n.layout, m, k) && ManualShape(n, m)
    requires Shape(StoreSlot(n, m, k, i, v))
    ensures Directed(StoreSlot(n, m, k, i, v), up, c, kk)
  {
    assert Directed(n, up, c, kk);
    if IsInput(n.layout, c, kk) && n.layout.defs[c].src == m && kk == k {
      assert WiredCoupler(n.layout, c) && CouplerShape(n, c);
      var row := n.slots[m][k];
      if up {
        MaxPermittedMonotone(n.layout, n.flags, c, row, row[i := v]);
      } else {
        MaxPermittedMonotone(n.layout, n.flags, c, row[i := v], row);
      }
    }
  }

  lemma StoreSlotSync(n: Net, up: bool, bound: nat, m: nat, k: nat, i: nat, v: nat, c: nat, j: nat)
    requires SlotPending(n, up, bound, m, k, i, v) && IsKey(n.layout, m, k) && ManualShape(n, m)
    requires Shape(StoreSlot(n, m, k, i, v))
    ensures SlotSync(StoreSlot(n, m, k, i, v), c, j)
  {
    if IsOutput(n.layout, c, j) {
      assert CouplerShape(n, c) && WiredCoupler(n.layout, c) && ManualShape(n, n.layout.defs[c].dest);
      assert IsSlot(n.layout, c, j, m, k, i) || SlotSync(n, c, j);
    }
  }

  lemma StoreSlotRunning(n: Net, up: bool, bound: nat, m: nat, k: nat, i: nat, v: nat)
    requires SlotPending(n, up, bound, m, k, i, v) && IsKey(n.layout, m, k)
    ensures ManualShape(n, m) && Running(StoreSlot(n, m, k, i, v), up, bound)
  {
    StoreSlotShape(n, m, k, i, v);
    hide Wired, WiredManual;
    var b := StoreSlot(n, m, k, i, v);
    forall c: nat, kk: nat ensures Idle(b, c, kk) && Directed(b, up, c, kk) {
      assert Idle(n, c, kk) && CouplerShape(n, c);
      StoreSlotDirected(n, up, bound, m, k, i, v, c, kk);
    }
    forall c: nat, j: nat ensures Linked(b, c, j) && OutDirected(b, up, c, j) {
      assert Linked(n, c, j) && OutDirected(n, up, c, j) && CouplerShape(n, c);
    }
    forall c: nat, j: nat ensures SlotSync(b, c, j) {
      StoreSlotSync(n, up, bound, m, k, i, v, c, j);
    }
    forall mm: nat, kk: nat ensures TotalSync(b, mm, kk) && RowBounded(b, bound, mm, kk) {
      assert TotalSync(n, mm, kk) && RowBounded(n, bound, mm, kk) && ManualShape(n, mm);
    }
  }

  lemma StoreSlotKeeps(n: Net, up: bool, bound: nat, m: nat, k: nat, i: nat, v: nat)
    requires SlotPending(n, up, bound, m, k, i, v) && IsKey(n.layout, m, k)
    requires ManualShape(n, m) && n.slots[m][k][i] != v
    ensures var b := StoreSlot(n, m, k, i, v);
            && Shape(b)
            && (forall c: nat, kk: nat ::
                  Clean(n, c, kk) && !(IsInput(n.layout, c, kk) && n.layout.defs[c].src == m && kk == k) ==>
                    Clean(b, c, kk))
            && (forall c: nat, j: nat :: OutClean(n, c, j) ==> OutClean(b, c, j))
            && (forall mm: nat, kk: nat :: DivClean(n, mm, kk) && !(mm == m && kk == k) ==> DivClean(b, mm, kk))
            && (forall mm: nat, kk: nat :: if mm == m && kk == k then !SameRow(n, b, mm, kk) else SameRow(n, b, mm, kk))
            && (forall mm: nat, kk: nat :: RowMoves(n, b, up, mm, kk))
            && (forall mm: nat, kk: nat :: KeyboardSlot(b, mm, kk) == if mm == m && kk == k && i == 0 then v
               else KeyboardSlot(n, mm, kk))
            && b.division == n.division
            && Measure(b.slots, up, bound) < Measure(n.slots, up, bound)
  {
    StoreSlotShape(n, m, k, i, v);
    var b := StoreSlot(n, m, k, i, v);
    forall c: nat, j: nat ensures OutClean(n, c, j) ==> OutClean(b, c, j) {
      assert CouplerShape(n, c);
    }
    forall c: nat, kk: nat | Clean(n, c, kk) && !(IsInput(n.layout, c, kk) && n.layout.defs[c].src == m && kk == k)
      ensures Clean(b, c, kk)
    {
      assert CouplerShape(n, c);
    }
    forall mm: nat, kk: nat
      ensures if mm == m && kk == k then !SameRow(n, b, mm, kk) else SameRow(n, b, mm, kk)
      ensures RowMoves(n, b, up, mm, kk)
      ensures KeyboardSlot(b, mm, kk) == if mm == m && kk == k && i == 0 then v else KeyboardSlot(n, mm, kk)
      ensures DivClean(n, mm, kk) && !(mm == m && kk == k) ==> DivClean(b, mm, kk)
    {
      assert ManualShape(n, mm) && ManualShape(b, mm);
    }
    var row := n.slots[m][k];
    assert RowBounded(n, bound, m, k);
    RowMeasureUpdate(row, up, bound, i, v);
    RowsMeasureUpdate(n.slots[m], up, bound, k, row[i := v]);
    MeasureUpdate(n.slots, up, bound, m, n.slots[m][k := row[i := v]]);
  }

  // ---------- writing the division velocity of a key ----------

  function StoreDivision(n: Net, m: nat, k: nat, v: nat): Net
    requires m < |n.division| && k < |n.division[m]|
  {
    n.(division := Put(n.division, m, k, v))
  }

  lemma StoreDivisionKeeps(n: Net, up: bool, bound: nat, m: nat, k: nat)
    requires Running(n, up, bound) && IsKey(n.layout, m, k)
    ensures ManualShape(n, m)
    ensures var b := StoreDivision(n, m, k, Sounding(n, m, k));
            && Running(b, up, bound) && DivClean(b, m, k) && SameKeyboardSlots(n, b) && SameSwitches(n, b)
               && n.held == b.held
            && (forall c: nat, kk: nat :: Clean(n, c, kk) == Clean(b, c, kk))
            && (forall c: nat, j: nat :: OutClean(n, c, j) == OutClean(b, c, j))
            && (forall mm: nat, kk: nat :: DivClean(n, mm, kk) ==> DivClean(b, mm, kk))
            && (forall mm: nat, kk: nat :: (mm == m && kk == k) || SameDivision(n, b, mm, kk))
            && n.slots == b.slots
  {
    assert ManualShape(n, m);
    var b := StoreDivision(n, m, k, Sounding(n, m, k));
    DivisionIrrelevant(n, b, up, bound);
    forall mm: nat, kk: nat
      ensures DivClean(n, mm, kk) ==> DivClean(b, mm, kk)
      ensures (mm == m && kk == k) || SameDivision(n, b, mm, kk)
    {
      assert ManualShape(n, mm) && ManualShape(b, mm);
    }
  }

  // Nothing but DivClean depends on the division velocities.
  lemma DivisionIrrelevant(n: Net, b: Net, up: bool, bound: nat)
    requires Running(n, up, bound)
    requires b == n.(division := b.division) && |b.division| == |n.division|
    requires forall m :: 0 <= m < |n.division| ==> |b.division[m]| == |n.division[m]|
    ensures Running(b, up, bound)
    ensures forall c: nat, k: nat :: Clean(n, c, k) == Clean(b, c, k)
    ensures forall c: nat, j: nat :: OutClean(n, c, j) == OutClean(b, c, j)
    ensures forall m: nat, k: nat :: SameRow(n, b, m, k) && KeyboardSlot(n, m, k) == KeyboardSlot(b, m, k)
  {
    forall m: nat ensures ManualShape(b, m) {
      assert ManualShape(n, m);
    }
    forall c: nat ensures CouplerShape(b, c) {
      assert CouplerShape(n, c);
    }
    forall c: nat, k: nat ensures Idle(b, c, k) && Directed(b, up, c, k) && Clean(n, c, k) == Clean(b, c, k) {
      assert Idle(n, c, k) && Directed(n, up, c, k);
    }
    forall c: nat, j: nat
      ensures Linked(b, c, j) && OutDirected(b, up, c, j) && SlotSync(b, c, j) && OutClean(n, c, j) == OutClean(b, c, j)
    {
      assert Linked(n, c, j) && OutDirected(n, up, c, j) && SlotSync(n, c, j);
    }
    forall m: nat, k: nat ensures TotalSync(b, m, k) && RowBounded(b, bound, m, k) {
      assert TotalSync(n, m, k) && RowBounded(n, bound, m, k);
    }
  }

  // ---------- writing the velocities of a coupler ----------

  function StoreKey(n: Net, c: nat, k: nat, v: nat): Net
    requires c < |n.keyVel| && k < |n.keyVel[c]|
  {
    n.(keyVel := Put(n.keyVel, c, k, v))
  }

  function StoreInternal(n: Net, c: nat, j: nat, v: nat): Net
    requires c < |n.internalVel| && j < |n.internalVel[c]|
  {
    n.(internalVel := Put(n.internalVel, c, j, v))
  }

  function StoreOut(n: Net, c: nat, j: nat, v: nat): Net
    requires c < |n.outVel| && j < |n.outVel[c]|
  {
    n.(outVel := Put(n.outVel, c, j, v))
  }

  // Does input key k of coupler c reach a key of the destination?
  predicate Reaches(l: Layout, c: nat, k: nat) {
    c < |l.defs| && 0 <= k + l.defs[c].keyshift && IsOutput(l, c, k + l.defs[c].keyshift)
  }

  // The state once the internal velocity that belongs to input key k is written.
  ghost function Completed(n: Net, c: nat, k: nat): Net
    requires Shape(n) && IsInput(n.layout, c, k)
  {
    assert CouplerShape(n, c);
    if Reaches(n.layout, c, k)
    then StoreInternal(n, c, k + n.layout.defs[c].keyshift, n.keyVel[c][k])
    else n
  }

  lemma StoreKeyShape(n: Net, c: nat, k: nat, v: nat)
    requires Shape(n) && IsInput(n.layout, c, k)
    ensures CouplerShape(n, c) && Shape(StoreKey(n, c, k, v))
    ensures Shape(Completed(StoreKey(n, c, k, v), c, k))
  {
    assert CouplerShape(n, c);
    var a := StoreKey(n, c, k, v);
    forall m: nat ensures ManualShape(a, m) {
      assert ManualShape(n, m);
    }
    forall i: nat ensures CouplerShape(a, i) {
      assert CouplerShape(n, i);
    }
    var b := Completed(a, c, k);
    forall m: nat ensures ManualShape(b, m) {
      assert ManualShape(n, m);
    }
    forall i: nat ensures CouplerShape(b, i) {
      assert CouplerShape(n, i);
    }
  }

  lemma StoreOutShape(n: Net, c: nat, j: nat, v: nat)
    requires Shape(n) && IsOutput(n.layout, c, j)
    ensures CouplerShape(n, c) && Shape(StoreOut(n, c, j, v))
  {
    assert CouplerShape(n, c);
    var b := StoreOut(n, c, j, v);
    forall m: nat ensures ManualShape(b, m) {
      assert ManualShape(n, m);
    }
    forall i: nat ensures CouplerShape(b, i) {
      assert CouplerShape(n, i);
    }
  }

  // Taking over the wanted velocity of a key brings that key into agreement and spoils no
  // other entry; what is left to write is the internal velocity behind it.
  lemma TakeOver(n: Net, up: bool, bound: nat, c: nat, k: nat)
    requires Running(n, up, bound) && IsInput(n.layout, c, k) && n.layout.defs[c].InWindow(k)
    ensures CouplerShape(n, c)
    ensures var b := StoreKey(n, c, k, Wanted(n, c, k));
            && Shape(b)
            && Step(n, b, up, bound)
            && Clean(b, c, k)
            && SameKeyboardSlots(n, b)
            && Running(Completed(b, c, k), up, bound)
  {
    StoreKeyShape(n, c, k, Wanted(n, c, k));
    hide Wired, WiredManual, WiredCoupler;
    var b := StoreKey(n, c, k, Wanted(n, c, k));
    var f := Completed(b, c, k);
    forall i: nat, kk: nat
      ensures Idle(f, i, kk) && Directed(f, up, i, kk) && (Clean(n, i, kk) || (i == c && kk == k) ==> Clean(b, i, kk))
    {
      assert Idle(n, i, kk) && Directed(n, up, i, kk) && CouplerShape(n, i);
    }
    forall i: nat, j: nat
      ensures Linked(f, i, j) && OutDirected(f, up, i, j) && SlotSync(f, i, j) && OutClean(n, i, j) == OutClean(b, i, j)
    {
      assert Linked(n, i, j) && OutDirected(n, up, i, j) && SlotSync(n, i, j) && CouplerShape(n, i);
      assert Directed(n, up, c, k);
    }
    forall m: nat, kk: nat
      ensures TotalSync(f, m, kk) && RowBounded(f, bound, m, kk)
      ensures DivClean(n, m, kk) == DivClean(b, m, kk) && KeyboardSlot(n, m, kk) == KeyboardSlot(b, m, kk)
      ensures SameRow(n, b, m, kk) && RowMoves(n, b, up, m, kk) && SameDivision(n, b, m, kk)
    {
      assert TotalSync(n, m, kk) && RowBounded(n, bound, m, kk);
    }
  }

  // A coupler that is off, or whose key leads nowhere, only notes the internal velocity.
  lemma NoteInternal(n: Net, up: bool, bound: nat, c: nat, k: nat)
    requires Shape(n) && IsInput(n.layout, c, k) && !(Reaches(n.layout, c, k) && n.engaged[c])
    requires Running(Completed(n, c, k), up, bound)
    ensures Step(n, Completed(n, c, k), up, bound) && SameKeyboardSlots(n, Completed(n, c, k))
  {
    var f := Completed(n, c, k);
    forall i: nat, j: nat ensures OutClean(n, i, j) ==> OutClean(f, i, j) {
      assert CouplerShape(n, i);
    }
    forall i: nat, kk: nat
      ensures Clean(n, i, kk) == Clean(f, i, kk) && DivClean(n, i, kk) == DivClean(f, i, kk)
      ensures KeyboardSlot(n, i, kk) == KeyboardSlot(f, i, kk)
      ensures SameRow(n, f, i, kk) && RowMoves(n, f, up, i, kk) && SameDivision(n, f, i, kk)
    {
    }
  }

  // An output velocity on its way: it is stored, its slot is still to be written.
  lemma StoreOutPending(n: Net, up: bool, bound: nat, c: nat, j: nat)
    requires Running(n, up, bound) && IsOutput(n.layout, c, j)
    ensures CouplerShape(n, c)
    ensures var b := StoreOut(n, c, j, OutTarget(n, c, j));
            && SlotPending(b, up, bound, n.layout.defs[c].dest, j, n.layout.defs[c].index, OutTarget(n, c, j))
            && Step(n, b, up, bound)
            && OutClean(b, c, j)
            && SameKeyboardSlots(n, b)
  {
    var v := OutTarget(n, c, j);
    StoreOutShape(n, c, j, v);
    var b := StoreOut(n, c, j, v);
    assert WiredCoupler(n.layout, c) && CouplerShape(n, c);
    forall i: nat, kk: nat ensures Idle(b, i, kk) && Directed(b, up, i, kk) && Clean(n, i, kk) == Clean(b, i, kk) {
      assert Idle(n, i, kk) && Directed(n, up, i, kk);
    }
    forall i: nat, jj: nat
      ensures Linked(b, i, jj) && OutDirected(b, up, i, jj)
      ensures OutClean(n, i, jj) || (i == c && jj == j) ==> OutClean(b, i, jj)
      ensures (i == c && jj == j) || SlotSync(b, i, jj)
    {
      assert Linked(n, i, jj) && OutDirected(n, up, i, jj) && SlotSync(n, i, jj) && CouplerShape(n, i);
    }
    forall m: nat, kk: nat
      ensures TotalSync(b, m, kk) && RowBounded(b, bound, m, kk) && SameRow(n, b, m, kk)
      ensures DivClean(n, m, kk) == DivClean(b, m, kk) && KeyboardSlot(n, m, kk) == KeyboardSlot(b, m, kk)
      ensures RowMoves(n, b, up, m, kk) && SameDivision(n, b, m, kk)
    {
      assert TotalSync(n, m, kk) && RowBounded(n, bound, m, kk);
    }
    OutTargetBounded(n, up, bound, c, j);
  }

  // The same for a coupler that has not yet noted the internal velocity: noting it and
  // storing the output together spoil nothing.
  lemma SendPending(n: Net, up: bool, bound: nat, c: nat, k: nat)
    requires Shape(n) && IsInput(n.layout, c, k) && Reaches(n.layout, c, k) && n.engaged[c]
    requires Running(Completed(n, c, k), up, bound)
    ensures CouplerShape(n, c)
    ensures var j := k + n.layout.defs[c].keyshift;
            var b := StoreOut(Completed(n, c, k), c, j, Pred(n.keyVel[c][k]));
            && SlotPending(b, up, bound, n.layout.defs[c].dest, j, n.layout.defs[c].index, Pred(n.keyVel[c][k]))
            && Step(n, b, up, bound)
            && SameKeyboardSlots(n, b)
  {
    var j := k + n.layout.defs[c].keyshift;
    var f := Completed(n, c, k);
    assert CouplerShape(n, c) && CouplerShape(f, c);
    StoreOutPending(f, up, bound, c, j);
    var b := StoreOut(f, c, j, OutTarget(f, c, j));
    forall i: nat, jj: nat ensures OutClean(n, i, jj) ==> OutClean(b, i, jj) {
      assert CouplerShape(n, i);
      assert (i == c && jj == j) || (OutClean(n, i, jj) ==> OutClean(f, i, jj));
    }
    forall i: nat, kk: nat
      ensures Clean(n, i, kk) ==> Clean(b, i, kk)
      ensures DivClean(n, i, kk) ==> DivClean(b, i, kk)
      ensures KeyboardSlot(n, i, kk) == KeyboardSlot(b, i, kk)
      ensures SameRow(n, b, i, kk) && RowMoves(n, b, up, i, kk) && SameDivision(n, b, i, kk)
    {
      assert Clean(n, i, kk) == Clean(f, i, kk) && DivClean(n, i, kk) == DivClean(f, i, kk);
    }
  }

  // What a coupler is to send never exceeds the bound on the slots, and lies beyond what the
  // slot it drives holds now.
  lemma OutTargetBounded(n: Net, up: bool, bound: nat, c: nat, j: nat)
    requires Running(n, up, bound) && IsOutput(n.layout, c, j)
    ensures OutTarget(n, c, j) <= bound
    ensures WiredCoupler(n.layout, c) && ManualShape(n, n.layout.defs[c].dest)
    ensures var slot := n.slots[n.layout.defs[c].dest][j][n.layout.defs[c].index];
            if up then slot <= OutTarget(n, c, j) else slot >= OutTarget(n, c, j)
  {
    var d := n.layout.defs[c];
    assert WiredCoupler(n.layout, c) && CouplerShape(n, c) && ManualShape(n, d.dest) && ManualShape(n, d.src);
    assert SlotSync(n, c, j) && OutDirected(n, up, c, j) && Linked(n, c, j) && RowBounded(n, bound, d.dest, j);
    var k := j - d.keyshift;
    if up && 0 <= k < |n.keyVel[c]| {
      assert Idle(n, c, k) && Directed(n, up, c, k) && RowBounded(n, bound, d.src, k);
    }
  }
}
