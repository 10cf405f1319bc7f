// What the settled coupler network means: every slot holds the best velocity that reaches
// it over a chain of engaged couplers, losing one unit per hop.  Hence the settled state is
// determined by the keys held, the couplers engaged and the couple-through settings alone.
module CouplerPaths {
  import opened CouplerNet
  import opened CouplerQuiet

  // Slot i of key k of manual m.
  datatype Node = Node(m: nat, k: nat, i: nat)

  predicate IsNode(l: Layout, a: Node) {
    IsKey(l, a.m, a.k) && a.i <= |l.manuals[a.m].inputs|
  }

  // Does the coupler that drives slot `b` take over what arrives in slot `a`?
  ghost predicate Hop(l: Layout, i: Inputs, a: Node, b: Node)
    requires Wired(l) && |i.flags| == |i.engaged| == |l.defs|
  {
    && IsNode(l, a) && IsNode(l, b) && b.i > 0
    && var c := l.manuals[b.m].inputs[b.i - 1];
    && WiredManual(l, b.m) && WiredCoupler(l, c)
    && i.engaged[c]
    && l.defs[c].src == a.m
    && l.defs[c].InWindow(a.k)
    && b.k == a.k + l.defs[c].keyshift
    && Permitted(l, i.flags, c, a.i)
  }

  // A chain of hops that starts at a key of some keyboard.
  ghost predicate IsPath(l: Layout, i: Inputs, p: seq<Node>)
    requires Wired(l) && |i.flags| == |i.engaged| == |l.defs|
  {
    && p != []
    && IsNode(l, p[0]) && p[0].i == 0
    && forall j {:trigger p[j]} :: 0 < j < |p| ==> Hop(l, i, p[j - 1], p[j])
  }

  // The encoded velocity of the accessible key on logical key k, 0 if there is none.
  function HeldAt(l: Layout, i: Inputs, m: nat, k: nat): nat {
    if m < |l.manuals| && m < |i.held| then
      var a := k - (l.manuals[m].firstLogical - 1);
      if 0 <= a < |i.held[m]| then Encode(i.held[m][a]) else 0
    else 0
  }

  // What is left at the end of a path.
  function Arrives(l: Layout, i: Inputs, p: seq<Node>): int
    requires p != []
  {
    HeldAt(l, i, p[0].m, p[0].k) - (|p| - 1)
  }

  ghost function SlotAt(n: Net, a: Node): nat
    requires Shape(n) && IsNode(n.layout, a)
  {
    assert ManualShape(n, a.m);
    n.slots[a.m][a.k][a.i]
  }

  // Every hop shifts the note by exactly the DestinationKeyshift of its coupler.
  lemma HopTransposes(l: Layout, i: Inputs, a: Node, b: Node)
    requires Wired(l) && |i.flags| == |i.engaged| == |l.defs| && Hop(l, i, a, b)
    ensures b.k + l.manuals[b.m].FirstNote() ==
            a.k + l.manuals[a.m].FirstNote() + l.defs[l.manuals[b.m].inputs[b.i - 1]].destKeyshift
  {
    assert WiredManual(l, b.m) && WiredCoupler(l, l.manuals[b.m].inputs[b.i - 1]);
  }

  lemma HopLower(n: Net, a: Node, b: Node)
    requires Resting(n) && Hop(n.layout, InputsOf(n), a, b)
    ensures SlotAt(n, a) <= SlotAt(n, b) + 1
  {
    var c := n.layout.manuals[b.m].inputs[b.i - 1];
    assert WiredManual(n.layout, b.m) && WiredCoupler(n.layout, c) && CouplerShape(n, c) && ManualShape(n, a.m);
    assert SlotSync(n, c, b.k) && OutClean(n, c, b.k) && Linked(n, c, b.k) && Clean(n, c, a.k);
    var row := n.slots[a.m][a.k];
    assert row[a.i] <= MaxPermitted(n.layout, n.flags, c, row, |row|);
  }

  lemma PathStart(n: Net, a: Node)
    requires Resting(n) && IsNode(n.layout, a) && a.i == 0
    ensures SlotAt(n, a) == HeldAt(n.layout, InputsOf(n), a.m, a.k)
  {
    assert HeldSync(n, a.m, a.k) && ManualShape(n, a.m) && WiredManual(n.layout, a.m);
  }

  lemma PathPrefix(l: Layout, i: Inputs, p: seq<Node>)
    requires Wired(l) && |i.flags| == |i.engaged| == |l.defs| && IsPath(l, i, p) && |p| > 1
    ensures IsPath(l, i, p[..|p| - 1]) && Hop(l, i, p[|p| - 2], p[|p| - 1])
  {
    hide Hop;
    var q := p[..|p| - 1];
    forall j {:trigger q[j]} | 0 < j < |q| ensures Hop(l, i, q[j - 1], q[j]) {
      assert q[j] == p[j] && q[j - 1] == p[j - 1];
    }
    assert p[|p| - 1] == p[|p| - 1];
  }

  lemma PathExtended(l: Layout, i: Inputs, q: seq<Node>, b: Node)
    requires Wired(l) && |i.flags| == |i.engaged| == |l.defs| && IsPath(l, i, q)
    requires Hop(l, i, q[|q| - 1], b)
    ensures IsPath(l, i, q + [b]) && Arrives(l, i, q + [b]) == Arrives(l, i, q) - 1
  {
    hide Hop;
    var p := q + [b];
    forall j {:trigger p[j]} | 0 < j < |p| ensures Hop(l, i, p[j - 1], p[j]) {
      assert p[j - 1] == q[j - 1] && p[j] == if j < |q| then q[j] else b;
    }
  }

  lemma PathOfOne(l: Layout, i: Inputs, a: Node)
    requires Wired(l) && |i.flags| == |i.engaged| == |l.defs| && IsNode(l, a) && a.i == 0
    ensures IsPath(l, i, [a])
  {
  }

  // No path delivers more than the slot at its end holds.
  lemma {:induction false} PathLower(n: Net, p: seq<Node>)
    requires Resting(n) && IsPath(n.layout, InputsOf(n), p)
    ensures IsNode(n.layout, p[|p| - 1])
    ensures Arrives(n.layout, InputsOf(n), p) <= SlotAt(n, p[|p| - 1])
  {
    if |p| == 1 {
      PathStart(n, p[0]);
    } else {
      PathPrefix(n.layout, InputsOf(n), p);
      PathLower(n, p[..|p| - 1]);
      HopLower(n, p[|p| - 2], p[|p| - 1]);
    }
  }

  // A slot that is not silent and not the keyboard's own got its value over one last hop.
  lemma LastHop(n: Net, b: Node) returns (a: Node)
    requires Resting(n) && IsNode(n.layout, b) && b.i > 0 && SlotAt(n, b) > 0
    ensures Hop(n.layout, InputsOf(n), a, b) && IsNode(n.layout, a) && SlotAt(n, a) == SlotAt(n, b) + 1
  {
    assert WiredManual(n.layout, b.m);
    var c := n.layout.manuals[b.m].inputs[b.i - 1];
    assert WiredCoupler(n.layout, c) && CouplerShape(n, c) && ManualShape(n, b.m);
    assert SlotSync(n, c, b.k) && OutClean(n, c, b.k) && Linked(n, c, b.k);
    var src, k := n.layout.defs[c].src, b.k - n.layout.defs[c].keyshift;
    assert 0 <= k < |n.keyVel[c]|;
    assert Idle(n, c, k) && Clean(n, c, k) && ManualShape(n, src);
    var row := n.slots[src][k];
    var i :| 0 <= i < |row| && Permitted(n.layout, n.flags, c, i) && row[i] == SlotAt(n, b) + 1;
    a := Node(src, k, i);
  }

  // The value of a slot that is not silent is delivered by some path.
  lemma {:induction false} PathWitness(n: Net, b: Node, bound: nat) returns (p: seq<Node>)
    requires Resting(n) && IsNode(n.layout, b) && SlotAt(n, b) > 0
    requires forall m: nat, k: nat :: RowBounded(n, bound, m, k)
    ensures IsPath(n.layout, InputsOf(n), p) && p[|p| - 1] == b
    ensures Arrives(n.layout, InputsOf(n), p) == SlotAt(n, b)
    decreases bound - SlotAt(n, b)
  {
    hide Hop;
    if b.i == 0 {
      p := [b];
      PathStart(n, b);
      PathOfOne(n.layout, InputsOf(n), b);
    } else {
      var a := LastHop(n, b);
      assert RowBounded(n, bound, a.m, a.k) && ManualShape(n, a.m);
      assert SlotAt(n, a) <= bound;
      var q := PathWitness(n, a, bound);
      PathExtended(n.layout, InputsOf(n), q, b);
      p := q + [b];
    }
  }

  // The meaning of a settled slot: the most that any path delivers, or 0.
  lemma SlotIsBestPath(n: Net, b: Node)
    requires Resting(n) && IsNode(n.layout, b)
    ensures forall p {:trigger IsPath(n.layout, InputsOf(n), p)} ::
              IsPath(n.layout, InputsOf(n), p) && p[|p| - 1] == b ==> Arrives(n.layout, InputsOf(n), p) <= SlotAt(n, b)
    ensures SlotAt(n, b) == 0 ||
            exists p {:trigger IsPath(n.layout, InputsOf(n), p)} ::
              IsPath(n.layout, InputsOf(n), p) && p[|p| - 1] == b && Arrives(n.layout, InputsOf(n), p) == SlotAt(n, b)
  {
    forall p | IsPath(n.layout, InputsOf(n), p) && p[|p| - 1] == b
      ensures Arrives(n.layout, InputsOf(n), p) <= SlotAt(n, b)
    {
      PathLower(n, p);
    }
    if SlotAt(n, b) > 0 {
      SlotsBounded(n, Measure(n.slots, false, 0));
      var p := PathWitness(n, b, Measure(n.slots, false, 0));
    }
  }

  // The most that any path delivers to a slot, or 0: this is what a slot at rest holds, said of
  // the inputs alone.
  ghost predicate Delivered(l: Layout, i: Inputs, x: Node, v: nat) {
    && Wired(l) && |i.flags| == |i.engaged| == |l.defs|
    && (forall p {:trigger IsPath(l, i, p)} :: IsPath(l, i, p) && p[|p| - 1] == x ==> Arrives(l, i, p) <= v)
    && (v == 0 || exists p {:trigger IsPath(l, i, p)} :: IsPath(l, i, p) && p[|p| - 1] == x && Arrives(l, i, p) == v)
  }

  lemma SlotDelivered(n: Net, x: Node, v: nat)
    requires Resting(n) && IsNode(n.layout, x)
    ensures Delivered(n.layout, InputsOf(n), x, v) <==> v == SlotAt(n, x)
  {
    hide Resting, IsPath;
    RestingShape(n);
    SlotIsBestPath(n, x);
  }

  lemma SlotsAgree(a: Net, b: Net, x: Node)
    requires Resting(a) && Resting(b) && a.layout == b.layout && InputsOf(a) == InputsOf(b)
    requires IsNode(a.layout, x)
    ensures SlotAt(a, x) == SlotAt(b, x)
  {
    SlotIsBestPath(a, x);
    SlotIsBestPath(b, x);
  }

  // Two states at rest with the same inputs agree in everything but the counters of unison-off
  // couplers and what the stops have been told, whatever led to them.
  lemma SlotsHistoryIndependence(a: Net, b: Net)
    requires Resting(a) && Resting(b) && a.layout == b.layout && InputsOf(a) == InputsOf(b)
    ensures a.(unison := b.unison, division := b.division) == b
  {
    forall m | 0 <= m < |a.slots| ensures a.slots[m] == b.slots[m] {
      SameSlots(a, b, m);
    }
    assert a.slots == b.slots;
    forall c | 0 <= c < |a.keyVel|
      ensures a.keyVel[c] == b.keyVel[c] && a.internalVel[c] == b.internalVel[c] && a.outVel[c] == b.outVel[c]
    {
      SameCoupler(a, b, c);
    }
    assert a.keyVel == b.keyVel && a.internalVel == b.internalVel && a.outVel == b.outVel;
    forall m | 0 <= m < |a.slots| ensures a.total[m] == b.total[m] && a.remote[m] == b.remote[m] {
      SameMaxima(a, b, m);
    }
    assert a.total == b.total && a.remote == b.remote;
  }

  // If moreover the counters agree, keys whose divisions are right sound the same.
  lemma SoundHistoryIndependence(a: Net, b: Net, m: nat, k: nat)
    requires Resting(a) && Resting(b) && a.layout == b.layout && InputsOf(a) == InputsOf(b)
    requires IsKey(a.layout, m, k) && a.unison == b.unison && DivClean(a, m, k) && DivClean(b, m, k)
    ensures ManualShape(a, m) && ManualShape(b, m) && a.division[m][k] == b.division[m][k]
  {
    SlotsHistoryIndependence(a, b);
    assert ManualShape(a, m) && ManualShape(b, m);
  }

  // Two settled states with the same inputs are the same state, whatever led to them.
  lemma HistoryIndependence(a: Net, b: Net)
    requires Quiescent(a) && Quiescent(b) && a.layout == b.layout && InputsOf(a) == InputsOf(b)
    ensures a == b
  {
    SlotsHistoryIndependence(a, b);
    forall m | 0 <= m < |a.slots| ensures a.unison[m] == b.unison[m] {
      assert CounterSync(a, m) && CounterSync(b, m);
    }
    assert a.unison == b.unison;
    forall m | 0 <= m < |a.slots| ensures a.division[m] == b.division[m] {
      assert ManualShape(a, m) && ManualShape(b, m);
      forall k | 0 <= k < |a.division[m]| ensures a.division[m][k] == b.division[m][k] {
        assert DivClean(a, m, k) && DivClean(b, m, k);
      }
    }
    assert a.division == b.division;
  }

  lemma SameSlots(a: Net, b: Net, m: nat)
    requires Resting(a) && Resting(b) && a.layout == b.layout && InputsOf(a) == InputsOf(b)
    requires m < |a.slots|
    ensures a.slots[m] == b.slots[m]
  {
    assert ManualShape(a, m) && ManualShape(b, m);
    forall k | 0 <= k < |a.slots[m]| ensures a.slots[m][k] == b.slots[m][k] {
      forall i | 0 <= i < |a.slots[m][k]| ensures a.slots[m][k][i] == b.slots[m][k][i] {
        SlotsAgree(a, b, Node(m, k, i));
      }
    }
  }

  lemma SameCoupler(a: Net, b: Net, c: nat)
    requires Resting(a) && Resting(b) && a.layout == b.layout && InputsOf(a) == InputsOf(b)
    requires a.slots == b.slots && c < |a.layout.defs|
    ensures a.keyVel[c] == b.keyVel[c] && a.internalVel[c] == b.internalVel[c] && a.outVel[c] == b.outVel[c]
  {
    assert CouplerShape(a, c) && CouplerShape(b, c) && WiredCoupler(a.layout, c);
    forall k | 0 <= k < |a.keyVel[c]| ensures a.keyVel[c][k] == b.keyVel[c][k] {
      assert Clean(a, c, k) && Clean(b, c, k) && Idle(a, c, k) && Idle(b, c, k);
    }
    assert a.keyVel[c] == b.keyVel[c];
    forall j | 0 <= j < |a.outVel[c]|
      ensures a.internalVel[c][j] == b.internalVel[c][j] && a.outVel[c][j] == b.outVel[c][j]
    {
      assert Linked(a, c, j) && Linked(b, c, j) && OutClean(a, c, j) && OutClean(b, c, j);
    }
  }

  lemma SameMaxima(a: Net, b: Net, m: nat)
    requires Resting(a) && Resting(b) && a.layout == b.layout && InputsOf(a) == InputsOf(b)
    requires a.slots == b.slots && m < |a.slots|
    ensures a.total[m] == b.total[m] && a.remote[m] == b.remote[m]
  {
    assert ManualShape(a, m) && ManualShape(b, m);
    forall k | 0 <= k < |a.total[m]| ensures a.total[m][k] == b.total[m][k] && a.remote[m][k] == b.remote[m][k] {
      assert TotalSync(a, m, k) && TotalSync(b, m, k);
    }
  }

  // No hanging notes: with no key held, nothing sounds anywhere, not even around a loop of
  // couplers, and whatever the counters hold.
  lemma NoHangingNotes(n: Net)
    requires Resting(n) && NoKeyHeld(InputsOf(n))
    ensures forall x: Node :: IsNode(n.layout, x) ==> SlotAt(n, x) == 0
    ensures forall c: nat, j: nat :: IsOutput(n.layout, c, j) ==> CouplerShape(n, c) && n.outVel[c][j] == 0
    ensures forall m: nat, k: nat :: IsKey(n.layout, m, k) ==> ManualShape(n, m) && n.division[m][k] == 0
  {
    forall x: Node | IsNode(n.layout, x) ensures SlotAt(n, x) == 0 {
      SlotIsBestPath(n, x);
    }
    forall c: nat, j: nat | IsOutput(n.layout, c, j) ensures CouplerShape(n, c) && n.outVel[c][j] == 0 {
      assert CouplerShape(n, c) && WiredCoupler(n.layout, c) && SlotSync(n, c, j);
      assert SlotAt(n, Node(n.layout.defs[c].dest, j, n.layout.defs[c].index)) == 0;
    }
    forall m: nat, k: nat | IsKey(n.layout, m, k) ensures ManualShape(n, m) && n.division[m][k] == 0 {
      assert ManualShape(n, m) && TotalSync(n, m, k) && DivKnown(n, m, k);
      var row := n.slots[m][k];
      forall i | 0 <= i < |row| ensures row[i] == 0 {
        assert SlotAt(n, Node(m, k, i)) == 0;
      }
    }
  }

  // At most one key, with velocity v, is held.
  predicate LoneKey(i: Inputs, v: nat) {
    forall m, a :: 0 <= m < |i.held| && 0 <= a < |i.held[m]| ==> i.held[m][a] == 0 || i.held[m][a] == v
  }

  lemma LoneKeyBounds(n: Net, v: nat, x: Node)
    requires Resting(n) && LoneKey(InputsOf(n), v) && IsNode(n.layout, x)
    ensures SlotAt(n, x) <= Encode(v)
  {
    SlotIsBestPath(n, x);
  }

  // The two low bits absorb three hops: a key that is reached from a held key over at most
  // three hops sounds with the velocity that was played, as long as all held keys are played
  // equally.  A path of at least one hop keeps the velocity whatever the counters hold; for
  // the key itself the counter must be zero and the division right.
  lemma ThreeHopsKeepVelocity(n: Net, v: nat, p: seq<Node>)
    requires Resting(n) && LoneKey(InputsOf(n), v) && v > 0
    requires IsPath(n.layout, InputsOf(n), p) && |p| <= 4 && HeldAt(n.layout, InputsOf(n), p[0].m, p[0].k) == Encode(v)
    ensures IsNode(n.layout, p[|p| - 1]) && ManualShape(n, p[|p| - 1].m)
    ensures |p| > 1 || (n.unison[p[|p| - 1].m] == 0 && DivClean(n, p[|p| - 1].m, p[|p| - 1].k)) ==>
            n.division[p[|p| - 1].m][p[|p| - 1].k] == v
  {
    PathLower(n, p);
    var x := p[|p| - 1];
    var m, k := x.m, x.k;
    assert ManualShape(n, m) && TotalSync(n, m, k) && DivKnown(n, m, k);
    var row := n.slots[m][k];
    forall i | 0 <= i < |row| ensures row[i] <= Encode(v) {
      LoneKeyBounds(n, v, Node(m, k, i));
    }
    assert |p| > 1 ==> Hop(n.layout, InputsOf(n), p[|p| - 2], p[|p| - 1]);
    assert row[x.i] >= 4 * v;
  }
}
