// Runs of events of the coupler network: what the counters of the unison-off couplers hold
// after any run, and when the divisions are right.
module CouplerRuns {
  import opened Arithmetic
  import opened CouplerNet
  import opened CouplerPaths
  import opened CouplerQuiet
  import opened Sets

  // ---------- one event ----------

  // A couple-through event of a unison-off coupler of manual m.
  predicate Refreshes(l: Layout, e: Event, m: nat) {
    e.CoupleThrough? && e.coupler < |l.defs| && l.defs[e.coupler].unisonOff && l.defs[e.coupler].src == m
  }

  // The switch of such a coupler is thrown.
  predicate Throws(l: Layout, i: Inputs, e: Event, m: nat) {
    && e.Switch? && e.coupler < |l.defs| && e.coupler < |i.engaged|
    && l.defs[e.coupler].unisonOff && l.defs[e.coupler].src == m && i.engaged[e.coupler] != e.on
  }

  // What a couple-through event adds to the counter although no switch is thrown.
  function Drift(l: Layout, i: Inputs, e: Event, m: nat): int {
    if Refreshes(l, e, m) && e.coupler < |i.engaged| then (if i.engaged[e.coupler] then 1 else -1) else 0
  }

  // What an event adds to the counter of manual m.
  function CounterChange(l: Layout, i: Inputs, e: Event, m: nat): int {
    if Throws(l, i, e, m) then (if e.on then 1 else -1) else Drift(l, i, e, m)
  }

  predicate InRange(count: int) {
    0 <= count < WORD
  }

  // The counter leaves or reaches zero, so that the stops are told.
  predicate Told(count: int, change: int) {
    (change > 0 && count == 0) || (change < 0 && count == 1)
  }

  // The effect of an event on a network at rest.
  ghost predicate EventDone(a: Net, e: Event, b: Net)
    requires Possible(a.layout, e)
  {
    && Resting(a) && Resting(b) && b.layout == a.layout
    && InputsOf(b) == AfterEvent(a.layout, InputsOf(a), e)
    && (forall m: nat :: IsManual(a.layout, m) ==> ManualDone(a, e, b, m))
  }

  ghost predicate ManualDone(a: Net, e: Event, b: Net, m: nat)
    requires Shape(a) && Shape(b) && IsManual(a.layout, m) && b.layout == a.layout
  {
    && b.unison[m] == (a.unison[m] + CounterChange(a.layout, InputsOf(a), e, m)) % WORD
    && forall k: nat :: DivClean(b, m, k) <==> KeyRight(a, e, b, m, k)
  }

  // Is the division of a key right after an event?
  ghost predicate KeyRight(a: Net, e: Event, b: Net, m: nat, k: nat)
    requires Shape(a) && Shape(b) && IsManual(a.layout, m) && b.layout == a.layout
  {
    var change := CounterChange(a.layout, InputsOf(a), e, m);
    if change == 0 then DivClean(a, m, k) || !SameRow(a, b, m, k)
    else if Told(a.unison[m], change) then true
    else if InRange(a.unison[m] + change) then DivClean(a, m, k)
    else SoundsAlike(a, m, k) || !DivClean(a, m, k)
  }

  // ---------- runs ----------

  predicate AllPossible(l: Layout, es: seq<Event>) {
    forall j :: 0 <= j < |es| ==> Possible(l, es[j])
  }

  function InputsAfter(l: Layout, i: Inputs, es: seq<Event>): Inputs
    requires AllPossible(l, es)
  {
    if es == [] then i else AfterEvent(l, InputsAfter(l, i, es[..|es| - 1]), es[|es| - 1])
  }

  // The counter of manual m after a run, if it had no width.
  function CounterAfter(l: Layout, i: Inputs, count: int, es: seq<Event>, m: nat): int
    requires AllPossible(l, es)
  {
    if es == [] then count
    else
      var before := es[..|es| - 1];
      CounterAfter(l, i, count, before, m) + CounterChange(l, InputsAfter(l, i, before), es[|es| - 1], m)
  }

  // Couple-through events of unison-off couplers of manual m while these are on, less those
  // while they are off.
  function DriftAfter(l: Layout, i: Inputs, es: seq<Event>, m: nat): int
    requires AllPossible(l, es)
  {
    if es == [] then 0
    else
      var before := es[..|es| - 1];
      DriftAfter(l, i, before, m) + Drift(l, InputsAfter(l, i, before), es[|es| - 1], m)
  }

  // The counter never leaves the range of its 32 bits.
  predicate NeverWraps(l: Layout, i: Inputs, count: int, es: seq<Event>, m: nat)
    requires AllPossible(l, es)
  {
    forall j :: 0 <= j <= |es| ==> InRange(CounterAfter(l, i, count, es[..j], m))
  }

  // ---------- the divisions, said of inputs alone ----------

  // Some slot of the key holds something else with the inputs j than with the inputs i.
  ghost predicate RowDiffers(l: Layout, i: Inputs, j: Inputs, m: nat, k: nat) {
    exists s: nat, v: nat, w: nat ::
      IsNode(l, Node(m, k, s)) && Delivered(l, i, Node(m, k, s), v) && Delivered(l, j, Node(m, k, s), w) && v != w
  }

  lemma RowDiffersExactly(a: Net, b: Net, m: nat, k: nat)
    requires Resting(a) && Resting(b) && a.layout == b.layout
    ensures Shape(a) && Shape(b)
    ensures RowDiffers(a.layout, InputsOf(a), InputsOf(b), m, k) <==> !SameRow(a, b, m, k)
  {
    hide Resting, Delivered;
    RestingShape(a);
    RestingShape(b);
    if RowDiffers(a.layout, InputsOf(a), InputsOf(b), m, k) {
      var s: nat, v: nat, w: nat :|
        IsNode(a.layout, Node(m, k, s)) && Delivered(a.layout, InputsOf(a), Node(m, k, s), v)
        && Delivered(a.layout, InputsOf(b), Node(m, k, s), w) && v != w;
      SlotDelivered(a, Node(m, k, s), v);
      SlotDelivered(b, Node(m, k, s), w);
    }
    if !SameRow(a, b, m, k) {
      assert ManualShape(a, m) && ManualShape(b, m);
      var s :| 0 <= s < |a.slots[m][k]| && a.slots[m][k][s] != b.slots[m][k][s];
      SlotDelivered(a, Node(m, k, s), a.slots[m][k][s]);
      SlotDelivered(b, Node(m, k, s), b.slots[m][k][s]);
    }
  }

  // What the own keyboard delivers to a key is not louder than all the rest.
  ghost predicate Alike(l: Layout, i: Inputs, m: nat, k: nat) {
    forall v: nat :: IsKey(l, m, k) && Delivered(l, i, Node(m, k, 0), v) && v >= 4 ==> Covered(l, i, m, k, v)
  }

  ghost predicate Covered(l: Layout, i: Inputs, m: nat, k: nat, v: nat) {
    exists s: nat, w: nat :: s > 0 && IsNode(l, Node(m, k, s)) && Delivered(l, i, Node(m, k, s), w) && w / 4 >= v / 4
  }

  lemma AlikeExactly(n: Net, m: nat, k: nat)
    requires Resting(n)
    ensures Shape(n) && (Alike(n.layout, InputsOf(n), m, k) <==> SoundsAlike(n, m, k))
  {
    hide Resting, Delivered;
    RestingShape(n);
    if IsKey(n.layout, m, k) {
      assert ManualShape(n, m);
      RestingTotal(n, m, k);
      var row := n.slots[m][k];
      var own := row[0];
      SlotDelivered(n, Node(m, k, 0), own);
      if own >= 4 && Covered(n.layout, InputsOf(n), m, k, own) {
        var s: nat, w: nat :| s > 0 && IsNode(n.layout, Node(m, k, s))
          && Delivered(n.layout, InputsOf(n), Node(m, k, s), w) && w / 4 >= own / 4;
        SlotDelivered(n, Node(m, k, s), w);
        assert row[s] <= MaxRange(row, 1, |row|);
      }
      if own / 4 <= MaxRange(row, 1, |row|) / 4 && own >= 4 {
        var s :| 1 <= s < |row| && row[s] == MaxRange(row, 1, |row|);
        SlotDelivered(n, Node(m, k, s), row[s]);
        assert Covered(n.layout, InputsOf(n), m, k, own);
      }
      forall v: nat | Delivered(n.layout, InputsOf(n), Node(m, k, 0), v) ensures v == own {
        SlotDelivered(n, Node(m, k, 0), v);
      }
      FirstAndRest(row);
    }
  }

  lemma RestingTotal(n: Net, m: nat, k: nat)
    requires Resting(n)
    ensures TotalSync(n, m, k)
  {
  }

  lemma FirstAndRest(row: seq<nat>)
    requires row != []
    ensures var all, rest := MaxRange(row, 0, |row|), MaxRange(row, 1, |row|);
            all == if row[0] > rest then row[0] else rest
  {
  }

  // Is the division of a key right after a run that starts with the inputs i, the counter at
  // `count` and the division right or not?
  ghost predicate Right(l: Layout, i: Inputs, count: int, right: bool, es: seq<Event>, m: nat, k: nat)
    requires AllPossible(l, es)
    decreases |es|
  {
    if es == [] then right
    else
      var before := es[..|es| - 1];
      var e := es[|es| - 1];
      var j := InputsAfter(l, i, before);
      var now := CounterAfter(l, i, count, before, m) % WORD;
      RightNext(l, j, e, now, Right(l, i, count, right, before, m, k), m, k)
  }

  // The same for one event.
  ghost predicate RightNext(l: Layout, i: Inputs, e: Event, count: int, right: bool, m: nat, k: nat)
    requires Possible(l, e)
  {
    var change := CounterChange(l, i, e, m);
    if change == 0 then right || RowDiffers(l, i, AfterEvent(l, i, e), m, k)
    else if Told(count, change) then true
    else if InRange(count + change) then right
    else Alike(l, i, m, k) || !right
  }

  lemma KeyRightNext(a: Net, e: Event, b: Net, m: nat, k: nat)
    requires Resting(a) && Resting(b) && a.layout == b.layout && IsManual(a.layout, m) && Possible(a.layout, e)
    requires InputsOf(b) == AfterEvent(a.layout, InputsOf(a), e)
    ensures Shape(a) && Shape(b)
    ensures KeyRight(a, e, b, m, k) <==> RightNext(a.layout, InputsOf(a), e, a.unison[m], DivClean(a, m, k), m, k)
  {
    hide Resting, RowDiffers, Alike, AfterEvent, CounterChange, DivClean, SameRow, SoundsAlike;
    RestingShape(a);
    RestingShape(b);
    RowDiffersExactly(a, b, m, k);
    AlikeExactly(a, m, k);
  }

  // Without a wrap a division that was right is right after the run.
  lemma {:induction false} RightUnlessWraps(l: Layout, i: Inputs, count: int, es: seq<Event>, m: nat, k: nat)
    requires AllPossible(l, es) && NeverWraps(l, i, count, es, m)
    ensures Right(l, i, count, true, es, m, k)
    decreases |es|
  {
    hide CounterChange, RowDiffers, Alike, InputsAfter;
    if es != [] {
      var before := es[..|es| - 1];
      forall j | 0 <= j <= |before| ensures InRange(CounterAfter(l, i, count, before[..j], m)) {
        assert before[..j] == es[..j];
      }
      RightUnlessWraps(l, i, count, before, m, k);
      assert before[..|before|] == before && es[..|es|] == es;
      assert InRange(CounterAfter(l, i, count, es[..|es|], m))
             && InRange(CounterAfter(l, i, count, before[..|before|], m));
    }
  }

  // The effect of a run: the inputs are what the run leaves, the counters count modulo 2^32,
  // and the divisions are right exactly where they should be.
  ghost predicate RunDone(a: Net, es: seq<Event>, b: Net)
    requires AllPossible(a.layout, es)
  {
    && Resting(a) && Resting(b) && b.layout == a.layout
    && InputsOf(b) == InputsAfter(a.layout, InputsOf(a), es)
    && (forall m: nat :: IsManual(a.layout, m) ==> ManualRun(a, es, b, m))
  }

  ghost predicate ManualRun(a: Net, es: seq<Event>, b: Net, m: nat)
    requires AllPossible(a.layout, es)
    requires Shape(a) && Shape(b) && IsManual(a.layout, m) && b.layout == a.layout
  {
    && b.unison[m] == CounterAfter(a.layout, InputsOf(a), a.unison[m], es, m) % WORD
    && forall k: nat :: DivClean(b, m, k) <==> Right(a.layout, InputsOf(a), a.unison[m], DivClean(a, m, k), es, m, k)
  }

  lemma NothingDone(a: Net)
    requires Resting(a)
    ensures RunDone(a, [], a)
  {
    forall m: nat | IsManual(a.layout, m) ensures ManualRun(a, [], a, m) {
      assert CounterFits(a, m);
    }
  }

  lemma OneMoreDone(a: Net, es: seq<Event>, b: Net, c: Net)
    requires es != [] && AllPossible(a.layout, es)
    requires RunDone(a, es[..|es| - 1], b) && EventDone(b, es[|es| - 1], c)
    ensures RunDone(a, es, c)
  {
    hide Resting, AfterEvent, CounterChange, Shape, ManualShape, ManualRun, ManualDone;
    RestingShape(a);
    RestingShape(b);
    RestingShape(c);
    forall m: nat | IsManual(a.layout, m) ensures ManualRun(a, es, c, m) {
      OneMoreCounted(a, es, b, c, m);
    }
  }

  lemma OneMoreCounted(a: Net, es: seq<Event>, b: Net, c: Net, m: nat)
    requires es != [] && AllPossible(a.layout, es) && Resting(a) && Resting(b) && Resting(c)
    requires a.layout == b.layout == c.layout && IsManual(a.layout, m)
    requires InputsOf(b) == InputsAfter(a.layout, InputsOf(a), es[..|es| - 1])
    requires InputsOf(c) == AfterEvent(a.layout, InputsOf(b), es[|es| - 1])
    requires Shape(a) && Shape(b) && Shape(c)
    requires ManualRun(a, es[..|es| - 1], b, m) && ManualDone(b, es[|es| - 1], c, m)
    ensures ManualRun(a, es, c, m)
  {
    hide Resting, AfterEvent, CounterChange, InputsAfter, Wired, ManualShape, CouplerShape, DivClean, RightNext,
      KeyRight;
    var before := es[..|es| - 1];
    var e := es[|es| - 1];
    var i := InputsOf(a);
    var count := CounterAfter(a.layout, i, a.unison[m], before, m);
    var change := CounterChange(a.layout, InputsOf(b), e, m);
    assert CounterAfter(a.layout, i, a.unison[m], es, m) == count + change;
    WrapTwice(count, change);
    forall k: nat ensures DivClean(c, m, k) <==> Right(a.layout, i, a.unison[m], DivClean(a, m, k), es, m, k) {
      KeyRightNext(b, e, c, m, k);
      assert DivClean(b, m, k) <==> Right(a.layout, i, a.unison[m], DivClean(a, m, k), before, m, k);
      assert DivClean(c, m, k) <==> KeyRight(b, e, c, m, k);
    }
  }

  // ---------- the counters ----------

  lemma {:induction false} ReleaseKeeps(l: Layout, i: Inputs, m: nat, count: nat)
    requires IsManual(l, m)
    ensures AfterReleases(l, i, m, count).engaged == i.engaged
  {
    if count > 0 {
      ReleaseKeeps(l, i, m, count - 1);
    }
  }

  // The number of engaged unison-off couplers follows the thrown switches only.
  lemma EventOffs(l: Layout, i: Inputs, e: Event, m: nat)
    requires Possible(l, e) && |i.engaged| == |l.defs|
    ensures var next := AfterEvent(l, i, e);
            && |next.engaged| == |l.defs|
            && |UnisonOffs(l, next.engaged, m)| + Drift(l, i, e, m)
               == |UnisonOffs(l, i.engaged, m)| + CounterChange(l, i, e, m)
  {
    match e {
      case Note(_, _, _) =>
      case AllNotesOff(a) => ReleaseKeeps(l, i, a, l.manuals[a].accessible);
      case CoupleThrough(_, _) =>
      case Switch(c, on) => ThrownOffs(l, i.engaged, c, on, m);
    }
  }

  lemma ThrownOffs(l: Layout, engaged: seq<bool>, c: nat, on: bool, m: nat)
    requires |engaged| == |l.defs| && c < |l.defs|
    ensures |UnisonOffs(l, engaged[c := on], m)|
         == |UnisonOffs(l, engaged, m)| + if l.defs[c].unisonOff && l.defs[c].src == m
           && engaged[c] != on then (if on then 1 else -1) else 0
  {
    var before, after := UnisonOffs(l, engaged, m), UnisonOffs(l, engaged[c := on], m);
    if l.defs[c].unisonOff && l.defs[c].src == m && engaged[c] != on {
      if on {
        assert c !in before && after == before + {c};
      } else {
        assert c in before && after == before - {c};
      }
    } else {
      assert after == before;
    }
  }

  // After any run the counter, if it had no width, is the number of engaged unison-off
  // couplers and the drift of the run.
  lemma {:induction false} CounterIs(l: Layout, i: Inputs, es: seq<Event>, m: nat)
    requires AllPossible(l, es) && |i.engaged| == |l.defs|
    ensures var last := InputsAfter(l, i, es);
            && |last.engaged| == |l.defs|
            && CounterAfter(l, i, |UnisonOffs(l, i.engaged, m)|, es, m)
               == |UnisonOffs(l, last.engaged, m)| + DriftAfter(l, i, es, m)
  {
    hide UnisonOffs, AfterEvent, Drift, CounterChange;
    if es != [] {
      var before := es[..|es| - 1];
      CounterIs(l, i, before, m);
      EventOffs(l, InputsAfter(l, i, before), es[|es| - 1], m);
    }
  }

  lemma FewOffs(l: Layout, engaged: seq<bool>, m: nat)
    requires |engaged| == |l.defs|
    ensures |UnisonOffs(l, engaged, m)| <= |l.defs|
  {
    SubsetSize(UnisonOffs(l, engaged, m), Below(|l.defs|));
  }

  // The counter after a run that starts settled: the engaged unison-off couplers and the
  // drift, modulo 2^32.  It is right if and only if the drift is a multiple of 2^32.
  lemma RunCounts(a: Net, es: seq<Event>, b: Net, m: nat)
    requires Quiescent(a) && AllPossible(a.layout, es) && RunDone(a, es, b) && IsManual(a.layout, m)
    ensures Shape(b)
    ensures var drift := DriftAfter(a.layout, InputsOf(a), es, m);
            && b.unison[m] == (|EngagedUnisonOff(b, m)| + drift) % WORD
            && (CounterSync(b, m) <==> drift % WORD == 0)
  {
    hide Resting, DriftAfter, CounterAfter, InputsAfter, NeverWraps;
    RestingShape(a);
    RestingShape(b);
    assert CounterSync(a, m) && ManualRun(a, es, b, m);
    CounterIs(a.layout, InputsOf(a), es, m);
    FewOffs(b.layout, b.engaged, m);
    SameModulo(|EngagedUnisonOff(b, m)|, DriftAfter(a.layout, InputsOf(a), es, m));
  }

  lemma SameModulo(x: nat, d: int)
    requires x < WORD
    ensures (x + d) % WORD == x <==> d % WORD == 0
  {
    var q := d / WORD;
    assert d == q * WORD + d % WORD;
    WrapTwice(d, x);
  }

  // The divisions after a run that starts settled, exactly; where the counter has not wrapped on
  // the way every division is right.
  lemma RunTells(a: Net, es: seq<Event>, b: Net, m: nat, k: nat)
    requires Quiescent(a) && AllPossible(a.layout, es) && RunDone(a, es, b) && IsManual(a.layout, m)
    ensures Shape(b)
    ensures DivClean(b, m, k) <==> Right(a.layout, InputsOf(a), a.unison[m], true, es, m, k)
    ensures NeverWraps(a.layout, InputsOf(a), a.unison[m], es, m) ==> DivClean(b, m, k)
  {
    hide Resting, NeverWraps, CounterAfter, InputsAfter, Right;
    RestingShape(a);
    RestingShape(b);
    assert ManualRun(a, es, b, m) && DivClean(a, m, k);
    if NeverWraps(a.layout, InputsOf(a), a.unison[m], es, m) {
      RightUnlessWraps(a.layout, InputsOf(a), a.unison[m], es, m, k);
    }
  }

  // No drift is left, and the stops have been told what is right.
  ghost predicate ManualSettles(a: Net, es: seq<Event>, m: nat)
    requires AllPossible(a.layout, es) && Shape(a) && IsManual(a.layout, m)
  {
    && DriftAfter(a.layout, InputsOf(a), es, m) % WORD == 0
    && forall k: nat :: IsKey(a.layout, m, k) ==> Right(a.layout, InputsOf(a), a.unison[m], true, es, m, k)
  }

  // A run leaves the network settled if and only if the drift of every manual is a multiple
  // of 2^32 and the stops have been told what is right of every key: a condition on the inputs
  // at the start and the events alone.
  lemma RunSettles(a: Net, es: seq<Event>, b: Net)
    requires Quiescent(a) && AllPossible(a.layout, es) && RunDone(a, es, b)
    ensures Shape(a)
    ensures Quiescent(b) <==> forall m: nat :: IsManual(a.layout, m) ==> ManualSettles(a, es, m)
  {
    hide Resting, DriftAfter, CounterAfter, InputsAfter, NeverWraps, CounterSync, Right, DivClean;
    RestingShape(a);
    RestingShape(b);
    forall m: nat | IsManual(a.layout, m)
      ensures CounterSync(b, m) <==> DriftAfter(a.layout, InputsOf(a), es, m) % WORD == 0
      ensures forall k: nat :: DivClean(b, m, k) <==> Right(a.layout, InputsOf(a), a.unison[m], true, es, m, k)
    {
      RunCounts(a, es, b, m);
      forall k: nat ensures DivClean(b, m, k) <==> Right(a.layout, InputsOf(a), a.unison[m], true, es, m, k) {
        RunTells(a, es, b, m, k);
      }
    }
    if Quiescent(b) {
      forall m: nat | IsManual(a.layout, m) ensures ManualSettles(a, es, m) {
        assert CounterSync(b, m) && forall k: nat :: DivClean(b, m, k);
      }
    }
    if forall m: nat :: IsManual(a.layout, m) ==> ManualSettles(a, es, m) {
      forall m: nat ensures CounterSync(b, m) {
        NoCounter(b, m);
        assert IsManual(a.layout, m) ==> ManualSettles(a, es, m);
      }
      forall m: nat, k: nat ensures DivClean(b, m, k) {
        NoDivision(b, m, k);
        assert IsManual(a.layout, m) ==> ManualSettles(a, es, m);
      }
    }
  }

  lemma NoDivision(n: Net, m: nat, k: nat)
    requires Shape(n)
    ensures !IsKey(n.layout, m, k) ==> DivClean(n, m, k)
  {
  }

  lemma NoCounter(n: Net, m: nat)
    requires Shape(n)
    ensures !IsManual(n.layout, m) ==> CounterSync(n, m)
  {
  }

  // Couple-through of normal couplers alone never lets a counter drift: such runs end settled.
  lemma RunWithoutRefresh(a: Net, es: seq<Event>, b: Net)
    requires Quiescent(a) && AllPossible(a.layout, es) && RunDone(a, es, b)
    requires forall j, m: nat :: 0 <= j < |es| ==> !Refreshes(a.layout, es[j], m)
    ensures Quiescent(b)
  {
    hide Quiescent, Resting, InputsAfter, CounterAfter, Right;
    assert Resting(a) && Resting(b) by { QuiescentRests(a); }
    RestingShape(a);
    forall m: nat | IsManual(a.layout, m)
      ensures DriftAfter(a.layout, InputsOf(a), es, m) == 0 && NeverWraps(a.layout, InputsOf(a), a.unison[m], es, m)
    {
      NoDrift(a.layout, InputsOf(a), es, m);
      forall j | 0 <= j <= |es| ensures InRange(CounterAfter(a.layout, InputsOf(a), a.unison[m], es[..j], m)) {
        NoDrift(a.layout, InputsOf(a), es[..j], m);
        CounterIs(a.layout, InputsOf(a), es[..j], m);
        CounterOf(a, m);
        FewOffs(a.layout, InputsAfter(a.layout, InputsOf(a), es[..j]).engaged, m);
      }
    }
    forall m: nat, k: nat | IsManual(a.layout, m)
      ensures Right(a.layout, InputsOf(a), a.unison[m], true, es, m, k)
    {
      RightUnlessWraps(a.layout, InputsOf(a), a.unison[m], es, m, k);
    }
    assert Shape(a) && forall m: nat :: IsManual(a.layout, m) ==> ManualSettles(a, es, m);
    RunSettles(a, es, b);
  }

  lemma QuiescentRests(n: Net)
    requires Quiescent(n)
    ensures Resting(n)
  {
  }

  lemma CounterOf(n: Net, m: nat)
    requires Quiescent(n) && IsManual(n.layout, m)
    ensures Shape(n) && n.unison[m] == |UnisonOffs(n.layout, n.engaged, m)|
  {
    assert CounterSync(n, m);
  }

  lemma {:induction false} NoDrift(l: Layout, i: Inputs, es: seq<Event>, m: nat)
    requires AllPossible(l, es) && forall j :: 0 <= j < |es| ==> !Refreshes(l, es[j], m)
    ensures DriftAfter(l, i, es, m) == 0
  {
    if es != [] {
      NoDrift(l, i, es[..|es| - 1], m);
    }
  }

  // Couple-through of a unison-off coupler that is off, on a manual where none is on: the
  // counter is now 2^32 - 1, so that from now on every key that changes is told as if unison
  // were off; a key that does not change is told wrongly exactly if that differs.
  lemma UnisonLost(n: Net, c: nat, k: nat)
    requires Quiescent(n) && c < |n.layout.defs| && n.layout.defs[c].unisonOff && !n.engaged[c]
    requires EngagedUnisonOff(n, n.layout.defs[c].src) == {} && IsKey(n.layout, n.layout.defs[c].src, k)
    ensures var m := n.layout.defs[c].src;
            var b := AfterUnison(n, m, false);
            && Shape(b) && ManualShape(n, m) && b.unison[m] == WORD - 1 && Sounding(b, m, k) == n.remote[m][k] / 4
            && (DivClean(b, m, k) <==> n.total[m][k] / 4 == n.remote[m][k] / 4)
  {
    var m := n.layout.defs[c].src;
    assert CounterSync(n, m) && DivClean(n, m, k) && ManualShape(n, m);
    UnisonShape(n, m, false);
  }
}
