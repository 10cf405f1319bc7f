// Drawstops with logic functions.  Changing one drawstop updates those it controls, depth
// first, so that a drawstop may be updated several times and pass through wrong values on
// the way; when the outermost call returns everything has settled.
module Drawstops {
  import opened Sets

  datatype Kind = Input | And | Or | Not | Xor | Nand | Nor

  // What is fixed once the drawstops are loaded.  `rank` witnesses that no drawstop controls
  // itself, directly or indirectly.
  datatype Wiring = Wiring(
    kind: seq<Kind>,
    controlling: seq<seq<nat>>,
    controlled: seq<seq<nat>>,
    readOnly: seq<bool>,
    gcState: seq<int>,
    rank: seq<nat>,
    top: nat)

  // The internal OR switch has named entries; "" is the entry of the button itself.
  datatype State = State(engaged: seq<bool>, entries: seq<map<string, bool>>)

  predicate IsStop(w: Wiring, d: nat) {
    d < |w.kind|
  }

  ghost predicate WiredStop(w: Wiring, d: nat)
    requires |w.kind| == |w.controlling| == |w.controlled| == |w.readOnly| == |w.gcState| == |w.rank|
  {
    IsStop(w, d) ==>
      && w.rank[d] <= w.top
      && (w.kind[d] == Input <==> w.controlling[d] == [])
      && (w.kind[d] != Input ==> w.readOnly[d])
      && (forall c :: c in w.controlling[d] ==> IsStop(w, c) && w.rank[c] < w.rank[d] && d in w.controlled[c])
      && (forall e :: e in w.controlled[d] ==> IsStop(w, e) && w.rank[d] < w.rank[e] && d in w.controlling[e])
  }

  ghost predicate Wired(w: Wiring) {
    && |w.kind| == |w.controlling| == |w.controlled| == |w.readOnly| == |w.gcState| == |w.rank|
    && forall d: nat :: WiredStop(w, d)
  }

  ghost predicate Fits(w: Wiring, s: State) {
    Wired(w) && |s.engaged| == |s.entries| == |w.kind|
  }

  // ---------- the logic functions ----------

  predicate AllOn(engaged: seq<bool>, ds: seq<nat>) {
    forall d :: d in ds ==> d < |engaged| && engaged[d]
  }

  predicate SomeOn(engaged: seq<bool>, ds: seq<nat>) {
    exists d :: d in ds && d < |engaged| && engaged[d]
  }

  // An odd number of them is on.
  predicate OddOn(engaged: seq<bool>, ds: seq<nat>) {
    if ds == [] then false
    else
      var last := ds[|ds| - 1];
      OddOn(engaged, ds[..|ds| - 1]) != (last < |engaged| && engaged[last])
  }

  ghost predicate Function(w: Wiring, engaged: seq<bool>, d: nat)
    requires |w.kind| == |w.controlling| && IsStop(w, d)
  {
    var ds := w.controlling[d];
    if w.kind[d] == And then AllOn(engaged, ds)
    else if w.kind[d] == Nand then !AllOn(engaged, ds)
    else if w.kind[d] == Or then SomeOn(engaged, ds)
    else if w.kind[d] == Nor then !SomeOn(engaged, ds)
    else if w.kind[d] == Xor then OddOn(engaged, ds)
    else ds != [] && ds[0] < |engaged| && !engaged[ds[0]]
  }

  // Is some entry of the internal OR switch on?
  predicate AnyOn(entries: map<string, bool>) {
    exists name :: name in entries && entries[name]
  }

  predicate AnyOtherOn(entries: map<string, bool>) {
    exists name :: name in entries && name != "" && entries[name]
  }

  // ---------- what holds of a settled drawstop ----------

  ghost predicate Settled(w: Wiring, s: State, d: nat)
    requires Fits(w, s)
  {
    IsStop(w, d) && w.kind[d] != Input ==> (s.engaged[d] <==> Function(w, s.engaged, d))
  }

  ghost predicate OrSync(w: Wiring, s: State, d: nat)
    requires Fits(w, s)
  {
    IsStop(w, d) ==> (s.engaged[d] <==> AnyOn(s.entries[d]))
  }

  // A logic function only ever uses the entry of the button.
  ghost predicate OwnEntry(w: Wiring, s: State, d: nat)
    requires Fits(w, s)
  {
    IsStop(w, d) && w.kind[d] != Input ==> s.entries[d].Keys <= {""} && (s.engaged[d] <==> AnyOn(s.entries[d]))
  }

  // Holds at every call, also in the middle of an update.
  ghost predicate Sound(w: Wiring, s: State) {
    Fits(w, s) && forall d: nat :: OwnEntry(w, s, d)
  }

  ghost predicate AllSettled(w: Wiring, s: State) {
    Sound(w, s) && forall d: nat :: Settled(w, s, d) && OrSync(w, s, d)
  }

  // The drawstop, together with its entries, is as it was.
  predicate Same(a: State, b: State, d: nat) {
    d < |a.engaged| && d < |a.entries| && d < |b.engaged| && d < |b.entries| ==>
      a.engaged[d] == b.engaged[d] && a.entries[d] == b.entries[d]
  }

  // What an update that starts at drawstop `from` may do.
  ghost predicate Step(w: Wiring, a: State, b: State, from: nat)
    requires Fits(w, a) && Fits(w, b) && IsStop(w, from)
  {
    && (forall d: nat :: Settled(w, a, d) && d != from ==> Settled(w, b, d))
    && (forall c: nat, d: nat {:trigger w.controlled[c], Settled(w, b, d)} ::
          IsStop(w, c) && d in w.controlled[c] && a.engaged[c] != b.engaged[c] ==> Settled(w, b, d))
    && (forall d: nat :: IsStop(w, d) && d != from && (w.rank[d] <= w.rank[from] || w.kind[d] == Input) ==>
       Same(a, b, d))
  }

  // ---------- the settled state is determined by the inputs ----------

  lemma SameFunction(w: Wiring, a: seq<bool>, b: seq<bool>, d: nat)
    requires Wired(w) && IsStop(w, d) && w.kind[d] != Input && |a| == |b| == |w.kind|
    requires forall c: nat :: c in w.controlling[d] ==> c < |a| && a[c] == b[c]
    ensures Function(w, a, d) <==> Function(w, b, d)
  {
    assert WiredStop(w, d);
    forall j | 0 <= j < |w.controlling[d]|
      ensures w.controlling[d][j] < |a| && a[w.controlling[d][j]] == b[w.controlling[d][j]]
    {
      assert w.controlling[d][j] in w.controlling[d];
    }
    SameOdd(a, b, w.controlling[d]);
    assert w.controlling[d][0] in w.controlling[d];
  }

  lemma {:induction false} SameOdd(a: seq<bool>, b: seq<bool>, ds: seq<nat>)
    requires |a| == |b| && forall j :: 0 <= j < |ds| ==> ds[j] < |a| && a[ds[j]] == b[ds[j]]
    ensures OddOn(a, ds) == OddOn(b, ds)
  {
    if ds != [] {
      SameOdd(a, b, ds[..|ds| - 1]);
    }
  }

  lemma {:induction false} SettledAgree(w: Wiring, a: State, b: State, d: nat)
    requires AllSettled(w, a) && AllSettled(w, b) && IsStop(w, d)
    requires forall i: nat :: IsStop(w, i) && w.kind[i] == Input ==> a.engaged[i] == b.engaged[i]
    ensures a.engaged[d] == b.engaged[d]
    decreases w.rank[d]
  {
    if w.kind[d] != Input {
      assert WiredStop(w, d);
      forall c | c in w.controlling[d] ensures c < |a.engaged| && a.engaged[c] == b.engaged[c] {
        SettledAgree(w, a, b, c);
      }
      SameFunction(w, a.engaged, b.engaged, d);
      assert Settled(w, a, d) && Settled(w, b, d);
    }
  }

  // Two settled states with the same inputs engage the same drawstops, whatever order the
  // updates came in and whatever values they passed through.
  lemma InputsDetermine(w: Wiring, a: State, b: State)
    requires AllSettled(w, a) && AllSettled(w, b)
    requires forall i: nat :: IsStop(w, i) && w.kind[i] == Input ==> a.engaged[i] == b.engaged[i]
    ensures a.engaged == b.engaged
  {
    forall d | 0 <= d < |a.engaged| ensures a.engaged[d] == b.engaged[d] {
      SettledAgree(w, a, b, d);
    }
  }

  // ---------- loops ----------

  // Drawstops in a ring, each controlled by the one before it.
  function Ring(kinds: seq<Kind>): (w: Wiring)
    ensures w.kind == kinds && |w.controlling| == |kinds|
  {
    var n := |kinds|;
    Wiring(kinds, seq(n, i requires 0 <= i < n => [Before(n, i)]),
      seq(n, i requires 0 <= i < n => [if i + 1 == n then 0 else i + 1]),
           seq(n, _ => true), seq(n, _ => 0), seq(n, _ => 0), 0)
  }

  function Before(n: nat, i: nat): nat
    requires i < n
  {
    if i == 0 then n - 1 else i - 1
  }

  ghost predicate RingSettled(kinds: seq<Kind>, engaged: seq<bool>) {
    |engaged| == |kinds| && forall d :: 0 <= d < |kinds| ==> (engaged[d] <==> Function(Ring(kinds), engaged, d))
  }

  predicate Inverts(k: Kind) {
    k == Not || k == Nand || k == Nor
  }

  // An odd number of them inverts.
  predicate OddInverting(kinds: seq<Kind>) {
    if kinds == [] then false else OddInverting(kinds[..|kinds| - 1]) != Inverts(kinds[|kinds| - 1])
  }

  lemma OneMoreKind(kinds: seq<Kind>, d: nat)
    requires d < |kinds|
    ensures OddInverting(kinds[..d + 1]) == (OddInverting(kinds[..d]) != Inverts(kinds[d]))
    ensures !OddInverting(kinds[..0])
  {
    assert kinds[..d + 1][..d] == kinds[..d];
  }

  // A function of one drawstop follows it or inverts it.
  lemma OneInput(kinds: seq<Kind>, engaged: seq<bool>, d: nat)
    requires d < |kinds| == |engaged| && kinds[d] != Input
    ensures Function(Ring(kinds), engaged, d) <==> (engaged[Before(|kinds|, d)] != Inverts(kinds[d]))
  {
    var c := Before(|kinds|, d);
    assert Ring(kinds).controlling[d] == [c];
    assert c in [c] && [c][..0] == [];
    assert OddOn(engaged, []) == false;
  }

  lemma {:induction false} AroundTheRing(kinds: seq<Kind>, engaged: seq<bool>, d: nat)
    requires d < |kinds| && Input !in kinds && RingSettled(kinds, engaged)
    ensures engaged[d] <==> (engaged[|kinds| - 1] != OddInverting(kinds[..d + 1]))
  {
    hide Function, Ring, OddInverting;
    OneInput(kinds, engaged, d);
    OneMoreKind(kinds, d);
    if d > 0 {
      AroundTheRing(kinds, engaged, d - 1);
    }
  }

  // Starting from a last drawstop that is off, once round the ring.
  function Around(kinds: seq<Kind>): seq<bool> {
    seq(|kinds|, d requires 0 <= d < |kinds| => OddInverting(kinds[..d + 1]))
  }

  lemma AroundSettles(kinds: seq<Kind>, d: nat)
    requires d < |kinds| && Input !in kinds && !OddInverting(kinds)
    ensures Around(kinds)[d] <==> Function(Ring(kinds), Around(kinds), d)
  {
    hide Function, Ring, OddInverting;
    var n := |kinds|;
    OneInput(kinds, Around(kinds), d);
    OneMoreKind(kinds, d);
    if d == 0 {
      assert kinds[..n] == kinds;
    }
  }

  // A ring can settle if and only if an even number of its functions inverts.
  lemma RingSettles(kinds: seq<Kind>)
    requires kinds != [] && Input !in kinds
    ensures (exists engaged :: RingSettled(kinds, engaged)) <==> !OddInverting(kinds)
  {
    hide Function, Ring, Around, OddInverting;
    var n := |kinds|;
    assert kinds[..n] == kinds;
    if engaged :| RingSettled(kinds, engaged) {
      AroundTheRing(kinds, engaged, n - 1);
    }
    if !OddInverting(kinds) {
      assert |Around(kinds)| == n by { AroundLength(kinds); }
      forall d | 0 <= d < n ensures Around(kinds)[d] <==> Function(Ring(kinds), Around(kinds), d) {
        AroundSettles(kinds, d);
      }
      assert RingSettled(kinds, Around(kinds));
    }
  }

  lemma AroundLength(kinds: seq<Kind>)
    ensures |Around(kinds)| == |kinds|
  {
  }

  // So a NOT of a drawstop that follows it never settles.
  lemma LoopNeverSettles(engaged: seq<bool>)
    ensures !RingSettled([Not, Or], engaged)
  {
    hide RingSettled;
    assert [Not, Or][..1] == [Not] && [Not][..0] == [];
    RingSettles([Not, Or]);
  }

  // ---------- facts about steps ----------

  lemma StepTransitive(w: Wiring, a: State, b: State, c: State, from: nat, from1: nat)
    requires Fits(w, a) && Fits(w, b) && Fits(w, c) && IsStop(w, from) && IsStop(w, from1)
    requires Step(w, a, b, from) && Step(w, b, c, from1)
    requires w.rank[from] < w.rank[from1] && w.kind[from1] != Input && Settled(w, c, from1)
    ensures Step(w, a, c, from)
  {
    forall d: nat | Settled(w, a, d) && d != from ensures Settled(w, c, d) {
      assert d == from1 || Settled(w, b, d);
    }
    forall x: nat, d: nat | IsStop(w, x) && d in w.controlled[x] && a.engaged[x] != c.engaged[x]
      ensures Settled(w, c, d)
    {
      if a.engaged[x] != b.engaged[x] {
        assert Settled(w, b, d);
      }
    }
    forall d: nat | IsStop(w, d) && d != from && (w.rank[d] <= w.rank[from] || w.kind[d] == Input)
      ensures Same(a, c, d)
    {
      assert Same(a, b, d) && Same(b, c, d);
    }
  }

  class Switchboard {
    const wiring: Wiring
    const stops: seq<Drawstop>
    // what the drawstops hold
    ghost var state: State

    ghost predicate Mirrors()
      reads this, stops
    {
      && Fits(wiring, state)
      && |stops| == |wiring.kind|
      && forall d :: 0 <= d < |stops| ==> stops[d].number == d && stops[d].Holds(state)
    }

    ghost predicate Valid()
      reads this, stops
    {
      Mirrors() && Sound(wiring, state)
    }

    ghost predicate Has(d: Drawstop) {
      d.number < |stops| && stops[d.number] == d
    }

    // The state a set of drawstops is loaded with: no logic function is engaged, no entry is
    // made; inputs start as configured.
    constructor (w: Wiring, engaged: seq<bool>)
      requires Wired(w) && |engaged| == |w.kind|
      requires forall d: nat :: IsStop(w, d) && w.kind[d] != Input ==> !engaged[d]
      ensures Valid() && wiring == w && state.engaged == engaged
      ensures forall d: nat :: d < |w.kind| ==> state.entries[d] == map[]
    {
      var ds: seq<Drawstop> := [];
      while |ds| < |w.kind|
        invariant |ds| <= |w.kind|
        invariant forall d :: 0 <= d < |ds| ==>
                    fresh(ds[d]) && ds[d].number == d && ds[d].engaged == engaged[d] && ds[d].entries == map[]
      {
        var d := new Drawstop(|ds|, engaged[|ds|]);
        ds := ds + [d];
      }
      wiring := w;
      stops := ds;
      state := State(engaged, seq(|w.kind|, _ => map[]));
    }

    // Every drawstop is updated once.  Inputs keep what they were loaded with (or had).
    method StartPlayback()
      requires Valid()
      requires forall d: nat :: IsStop(wiring, d) && wiring.kind[d] == Input ==>
                 state.entries[d] == map[] || OrSync(wiring, state, d)
      modifies this, stops
      ensures Valid() && AllSettled(wiring, state)
      ensures forall d: nat :: IsStop(wiring, d) && wiring.kind[d] == Input ==>
              state.engaged[d] == old(state).engaged[d]
    {
      var i := 0;
      while i < |stops|
        invariant 0 <= i <= |stops| && Valid()
        invariant Started(wiring, old(state), state, i)
      {
        ghost var before := state;
        stops[i].Update(this);
        StartedOne(wiring, old(state), before, state, i);
        i := i + 1;
      }
      StartedAll(wiring, old(state), state);
    }

    method Apply(e: Event)
      requires Valid() && AllSettled(wiring, state)
      modifies this, stops
      ensures Valid() && AllSettled(wiring, state)
      ensures InputsHold(wiring, state, AfterEvent(wiring, old(state).entries, e))
    {
      hide AllSettled, Sound, AfterEvent;
      ghost var s0 := state;
      if e.drawstop >= |stops| {
        NoSuchDrawstop(wiring, s0, e);
        return;
      }
      var d := stops[e.drawstop];
      match e {
        case Button(_, on) => d.SetButtonState(this, on);
        case Combination(_, name, on) => d.SetCombinationState(this, on, name);
        case Reset(_) => d.Reset(this);
      }
    }

    // After any run of events everything is settled and the inputs are what the run left.
    method Run(es: seq<Event>)
      requires Valid() && AllSettled(wiring, state)
      modifies this, stops
      ensures Valid() && AllSettled(wiring, state)
      ensures InputsHold(wiring, state, AfterEvents(wiring, old(state).entries, es))
    {
      hide AllSettled, Sound, AfterEvent, InputsHold;
      var i := 0;
      InputsStart(wiring, state);
      while i < |es|
        invariant 0 <= i <= |es|
        invariant Valid() && AllSettled(wiring, state)
        invariant InputsHold(wiring, state, AfterEvents(wiring, old(state).entries, es[..i]))
      {
        ghost var before := state;
        Apply(es[i]);
        SameEvent(wiring, before, AfterEvents(wiring, old(state).entries, es[..i]), es[i]);
        InputsHoldEqual(wiring, state, AfterEvent(wiring, before.entries, es[i]),
                        AfterEvent(wiring, AfterEvents(wiring, old(state).entries, es[..i]), es[i]));
        assert es[..i + 1][..i] == es[..i];
        i := i + 1;
      }
      assert es[..|es|] == es;
    }
  }

  // ---------- events ----------

  datatype Event =
    | Button(drawstop: nat, on: bool)
    | Combination(drawstop: nat, name: string, on: bool)
    | Reset(drawstop: nat)

  function AllOff(entries: map<string, bool>): map<string, bool> {
    map name | name in entries :: false
  }

  function AfterButton(entries: map<string, bool>, on: bool): map<string, bool> {
    if AnyOtherOn(entries) then entries else entries["" := on]
  }

  // What an event does to the entries of an input.
  function AfterEvent(w: Wiring, entries: seq<map<string, bool>>, e: Event): (r: seq<map<string, bool>>)
    requires |w.readOnly| == |w.gcState| == |entries|
    ensures |r| == |entries|
  {
    var d := e.drawstop;
    if d >= |entries| || w.readOnly[d] then entries
    else
      match e
      case Button(_, on) => entries[d := AfterButton(entries[d], on)]
      case Combination(_, name, on) => entries[d := entries[d][name := on]]
      case Reset(_) =>
        if w.gcState[d] < 0 then entries
        else if w.gcState[d] == 0 then entries[d := AllOff(entries[d])]
        else entries[d := AfterButton(entries[d], true)]
  }

  function AfterEvents(w: Wiring, entries: seq<map<string, bool>>, es: seq<Event>): (r: seq<map<string, bool>>)
    requires |w.readOnly| == |w.gcState| == |entries|
    ensures |r| == |entries|
  {
    if es == [] then entries else AfterEvent(w, AfterEvents(w, entries, es[..|es| - 1]), es[|es| - 1])
  }

  ghost predicate InputsHold(w: Wiring, s: State, entries: seq<map<string, bool>>)
    requires Fits(w, s) && |entries| == |w.kind|
  {
    forall d: nat :: IsStop(w, d) && w.kind[d] == Input ==> s.entries[d] == entries[d]
  }

  // History independence: after any two runs that leave the same entries at the inputs the
  // same drawstops are engaged.
  lemma EntriesDetermine(w: Wiring, a: State, b: State, entries: seq<map<string, bool>>)
    requires AllSettled(w, a) && AllSettled(w, b) && |entries| == |w.kind|
    requires InputsHold(w, a, entries) && InputsHold(w, b, entries)
    ensures a.engaged == b.engaged
  {
    hide Settled;
    forall d: nat | IsStop(w, d) && w.kind[d] == Input ensures a.engaged[d] == b.engaged[d] {
      assert OrSync(w, a, d) && OrSync(w, b, d);
    }
    InputsDetermine(w, a, b);
  }

  // ---------- what an event does to the drawstops ----------

  // Is some entry but that of this name on?
  predicate OnElsewhere(entries: map<string, bool>, name: string) {
    exists other :: other in entries && other != name && entries[other]
  }

  // The inputs but one, or all of them, are engaged as before.
  ghost predicate OthersKept(w: Wiring, a: State, b: State, d: nat) {
    && Fits(w, a) && Fits(w, b)
    && forall i: nat :: IsStop(w, i) && w.kind[i] == Input && i != d ==> a.engaged[i] == b.engaged[i]
  }

  lemma EventKeeps(w: Wiring, a: State, b: State, e: Event)
    requires AllSettled(w, a) && AllSettled(w, b) && InputsHold(w, b, AfterEvent(w, a.entries, e))
    ensures OthersKept(w, a, b, e.drawstop)
    ensures IsStop(w, e.drawstop) && a.engaged[e.drawstop] == b.engaged[e.drawstop] && !w.readOnly[e.drawstop] ==>
              a.engaged == b.engaged
    ensures IsStop(w, e.drawstop) && w.readOnly[e.drawstop] ==> a.engaged == b.engaged
  {
    hide Settled;
    forall i: nat | IsStop(w, i) && w.kind[i] == Input && (i != e.drawstop || w.readOnly[i])
      ensures a.engaged[i] == b.engaged[i]
    {
      assert OrSync(w, a, i) && OrSync(w, b, i);
    }
    if forall i: nat :: IsStop(w, i) && w.kind[i] == Input ==> a.engaged[i] == b.engaged[i] {
      InputsDetermine(w, a, b);
    }
    assert WiredStop(w, e.drawstop);
  }

  // General cancel switches a drawstop off if its GCState is 0 and on if it is above 0; below 0
  // nothing changes.
  lemma Cancelled(w: Wiring, a: State, b: State, d: nat)
    requires AllSettled(w, a) && AllSettled(w, b) && IsStop(w, d) && !w.readOnly[d]
    requires InputsHold(w, b, AfterEvent(w, a.entries, Event.Reset(d)))
    ensures w.gcState[d] == 0 ==> !b.engaged[d]
    ensures w.gcState[d] > 0 ==> b.engaged[d]
    ensures w.gcState[d] < 0 ==> b.engaged == a.engaged
    ensures OthersKept(w, a, b, d)
  {
    hide Settled;
    AboutStop(w, a, d);
    AboutStop(w, b, d);
    EventKeeps(w, a, b, Event.Reset(d));
    assert w.gcState[d] > 0 && !AnyOtherOn(a.entries[d]) ==> "" in b.entries[d] && b.entries[d][""];
  }

  // The button switches its drawstop, unless some combination holds it.
  lemma ButtonPressed(w: Wiring, a: State, b: State, d: nat, on: bool)
    requires AllSettled(w, a) && AllSettled(w, b) && IsStop(w, d) && !w.readOnly[d]
    requires InputsHold(w, b, AfterEvent(w, a.entries, Button(d, on)))
    ensures !OnElsewhere(a.entries[d], "") ==> b.engaged[d] == on
    ensures OnElsewhere(a.entries[d], "") ==> b.engaged == a.engaged && b.engaged[d]
    ensures OthersKept(w, a, b, d)
  {
    hide Settled;
    AboutStop(w, a, d);
    AboutStop(w, b, d);
    EventKeeps(w, a, b, Button(d, on));
    assert !OnElsewhere(a.entries[d], "") ==> "" in b.entries[d] && b.entries[d][""] == on;
  }

  // A combination switches a drawstop on, and off unless another one or the button holds it.
  lemma CombinationSet(w: Wiring, a: State, b: State, d: nat, name: string, on: bool)
    requires AllSettled(w, a) && AllSettled(w, b) && IsStop(w, d) && !w.readOnly[d]
    requires InputsHold(w, b, AfterEvent(w, a.entries, Combination(d, name, on)))
    ensures b.engaged[d] == (on || OnElsewhere(a.entries[d], name))
    ensures OthersKept(w, a, b, d)
  {
    hide Settled;
    AboutStop(w, a, d);
    AboutStop(w, b, d);
    EventKeeps(w, a, b, Combination(d, name, on));
    assert name in b.entries[d] && b.entries[d][name] == on;
    if OnElsewhere(a.entries[d], name) {
      var other :| other in a.entries[d] && other != name && a.entries[d][other];
      assert other in b.entries[d] && b.entries[d][other];
    }
  }

  // The controlling drawstops that are on, by their places.
  function OnPlaces(engaged: seq<bool>, ds: seq<nat>): set<nat> {
    set i: nat | i < |ds| && ds[i] < |engaged| && engaged[ds[i]]
  }

  lemma {:induction false} OddPlaces(engaged: seq<bool>, ds: seq<nat>)
    ensures OddOn(engaged, ds) <==> |OnPlaces(engaged, ds)| % 2 == 1
  {
    if ds != [] {
      var k := |ds| - 1;
      OddPlaces(engaged, ds[..k]);
      var before, on := OnPlaces(engaged, ds[..k]), ds[k] < |engaged| && engaged[ds[k]];
      assert OnPlaces(engaged, ds) == if on then before + {k} else before;
    }
  }

  // What a settled logic drawstop says of the drawstops that control it: how many are on.
  lemma LogicCounts(w: Wiring, s: State, d: nat)
    requires AllSettled(w, s) && IsStop(w, d)
    ensures w.kind[d] == Not ==> w.controlling[d] != [] && w.controlling[d][0] < |s.engaged|
    ensures var all, on := |w.controlling[d]|, |OnPlaces(s.engaged, w.controlling[d])|;
            && (w.kind[d] == And ==> (s.engaged[d] <==> on == all))
            && (w.kind[d] == Nand ==> (s.engaged[d] <==> on < all))
            && (w.kind[d] == Or ==> (s.engaged[d] <==> on > 0))
            && (w.kind[d] == Nor ==> (s.engaged[d] <==> on == 0))
            && (w.kind[d] == Xor ==> (s.engaged[d] <==> on % 2 == 1))
            && (w.kind[d] == Not ==> (s.engaged[d] <==> !s.engaged[w.controlling[d][0]]))
  {
    var ds := w.controlling[d];
    assert Settled(w, s, d) && WiredStop(w, d);
    assert ds != [] ==> ds[0] in ds;
    OddPlaces(s.engaged, ds);
    Counted(s.engaged, ds);
  }

  lemma Counted(engaged: seq<bool>, ds: seq<nat>)
    ensures |OnPlaces(engaged, ds)| <= |ds|
    ensures AllOn(engaged, ds) <==> |OnPlaces(engaged, ds)| == |ds|
    ensures SomeOn(engaged, ds) <==> |OnPlaces(engaged, ds)| > 0
  {
    var places := Below(|ds|);
    var on := OnPlaces(engaged, ds);
    SubsetSize(on, places);
    if AllOn(engaged, ds) {
      assert forall i :: i in places ==> ds[i] in ds;
      assert on == places;
    } else {
      var d: nat :| d in ds && !(d < |engaged| && engaged[d]);
      var i :| 0 <= i < |ds| && ds[i] == d;
      SubsetSize(on, places - {i});
    }
    if SomeOn(engaged, ds) {
      var d: nat :| d in ds && d < |engaged| && engaged[d];
      var i :| 0 <= i < |ds| && ds[i] == d;
      assert i in on;
    }
    if on != {} {
      var i :| i in on;
      assert ds[i] in ds;
    }
  }

  lemma InputsStart(w: Wiring, s: State)
    requires Fits(w, s)
    ensures InputsHold(w, s, s.entries)
  {
  }

  lemma NoSuchDrawstop(w: Wiring, s: State, e: Event)
    requires Fits(w, s) && e.drawstop >= |w.kind|
    ensures InputsHold(w, s, AfterEvent(w, s.entries, e))
  {
  }

  // An event treats equal inputs equally.
  lemma SameEvent(w: Wiring, s: State, entries: seq<map<string, bool>>, e: Event)
    requires Fits(w, s) && |entries| == |w.kind| && InputsHold(w, s, entries)
    ensures forall d: nat :: IsStop(w, d) && w.kind[d] == Input ==>
            AfterEvent(w, s.entries, e)[d] == AfterEvent(w, entries, e)[d]
  {
  }

  lemma InputsHoldEqual(w: Wiring, s: State, a: seq<map<string, bool>>, b: seq<map<string, bool>>)
    requires Fits(w, s) && |a| == |b| == |w.kind| && InputsHold(w, s, a)
    requires forall d: nat :: IsStop(w, d) && w.kind[d] == Input ==> a[d] == b[d]
    ensures InputsHold(w, s, b)
  {
  }

  // ---------- the start ----------

  // The first i drawstops have been updated since state s0.
  ghost predicate Started(w: Wiring, s0: State, s: State, i: nat)
    requires Fits(w, s0) && Fits(w, s)
  {
    && (forall d: nat :: d < i ==> Settled(w, s, d) && OrSync(w, s, d))
    && (forall d: nat :: i <= d && IsStop(w, d) && w.kind[d] == Input ==> Same(s0, s, d))
    && (forall d: nat :: IsStop(w, d) && w.kind[d] == Input ==> s.engaged[d] == s0.engaged[d])
  }

  lemma StartedOne(w: Wiring, s0: State, a: State, b: State, i: nat)
    requires Fits(w, s0) && Sound(w, a) && Sound(w, b) && IsStop(w, i)
    requires Started(w, s0, a, i) && Step(w, a, b, i) && Settled(w, b, i)
    requires w.kind[i] == Input ==> b.engaged[i] == a.engaged[i] && OrSync(w, b, i)
    ensures Started(w, s0, b, i + 1)
  {
    forall d: nat | d < i + 1 ensures Settled(w, b, d) && OrSync(w, b, d) {
      assert OwnEntry(w, b, d);
      if d < i {
        assert Settled(w, a, d) && OrSync(w, a, d);
        if IsStop(w, d) && w.kind[d] == Input {
          assert Same(a, b, d);
        }
      }
    }
    forall d: nat | IsStop(w, d) && w.kind[d] == Input && d != i ensures Same(a, b, d) {
    }
    forall d: nat | i + 1 <= d && IsStop(w, d) && w.kind[d] == Input ensures Same(s0, b, d) {
      assert Same(s0, a, d) && Same(a, b, d);
    }
  }

  lemma StartedAll(w: Wiring, s0: State, s: State)
    requires Fits(w, s0) && Sound(w, s) && Started(w, s0, s, |w.kind|)
    ensures AllSettled(w, s)
  {
  }

  // ---------- one drawstop ----------

  // The result of drawstop d is about to become `result`, what its entries say.
  ghost predicate Pending(w: Wiring, s: State, d: nat, result: bool) {
    && Fits(w, s) && IsStop(w, d)
    && (forall x: nat :: x != d ==> OwnEntry(w, s, x))
    && (w.kind[d] != Input ==> s.entries[d].Keys <= {""})
    && (result <==> AnyOn(s.entries[d]))
  }

  function Engaged(s: State, d: nat, on: bool): State
    requires d < |s.engaged|
  {
    s.(engaged := s.engaged[d := on])
  }

  function Entries(s: State, d: nat, entries: map<string, bool>): State
    requires d < |s.entries|
  {
    s.(entries := s.entries[d := entries])
  }

  // The drawstops that d controls are still to be updated, the first i excepted.
  ghost predicate Updating(w: Wiring, s1: State, s: State, d: nat, i: nat)
    requires Fits(w, s1) && Fits(w, s) && IsStop(w, d)
  {
    && Step(w, s1, s, d)
    && Same(s1, s, d)
    && i <= |w.controlled[d]|
    && forall j :: 0 <= j < i ==> Settled(w, s, w.controlled[d][j])
  }

  lemma UpdatingStarts(w: Wiring, s: State, d: nat)
    requires Fits(w, s) && IsStop(w, d)
    ensures Updating(w, s, s, d, 0)
  {
  }

  lemma UpdatingNext(w: Wiring, s1: State, a: State, b: State, d: nat, i: nat)
    requires Fits(w, s1) && Fits(w, a) && Fits(w, b) && IsStop(w, d) && i < |w.controlled[d]|
    requires Updating(w, s1, a, d, i) && IsStop(w, w.controlled[d][i])
    requires Step(w, a, b, w.controlled[d][i]) && Settled(w, b, w.controlled[d][i])
    ensures Updating(w, s1, b, d, i + 1)
  {
    var e := w.controlled[d][i];
    assert e in w.controlled[d] && WiredStop(w, d) && WiredStop(w, e);
    StepTransitive(w, s1, a, b, d, e);
    assert Same(a, b, d);
    forall j | 0 <= j < i + 1 ensures Settled(w, b, w.controlled[d][j]) {
      assert j == i || Settled(w, a, w.controlled[d][j]);
    }
  }

  // All that d controls have been updated: the step from the state before d changed.
  lemma UpdatingDone(w: Wiring, s0: State, s: State, d: nat, on: bool)
    requires Fits(w, s0) && Fits(w, s) && IsStop(w, d)
    requires Updating(w, Engaged(s0, d, on), s, d, |w.controlled[d]|)
    ensures Step(w, s0, s, d)
  {
    var s1 := Engaged(s0, d, on);
    forall x: nat | Settled(w, s0, x) && x != d ensures Settled(w, s, x) {
      if x in w.controlled[d] {
        var j :| 0 <= j < |w.controlled[d]| && w.controlled[d][j] == x;
      } else if IsStop(w, x) && w.kind[x] != Input {
        assert WiredStop(w, x);
        SameFunction(w, s0.engaged, s1.engaged, x);
        assert Settled(w, s1, x);
      }
    }
    forall x: nat, y: nat | IsStop(w, x) && y in w.controlled[x] && s0.engaged[x] != s.engaged[x]
      ensures Settled(w, s, y)
    {
      if x == d {
        var j :| 0 <= j < |w.controlled[d]| && w.controlled[d][j] == y;
      } else {
        assert s1.engaged[x] != s.engaged[x];
      }
    }
    forall x: nat | IsStop(w, x) && x != d && (w.rank[x] <= w.rank[d] || w.kind[x] == Input) ensures Same(s0, s, x) {
      assert Same(s1, s, x);
    }
  }

  // Entries other than those of logic functions do not matter to a step.
  lemma StepFromEntries(w: Wiring, a: State, b: State, d: nat, entries: map<string, bool>)
    requires Fits(w, a) && Fits(w, b) && IsStop(w, d)
    requires Step(w, Entries(a, d, entries), b, d)
    ensures Step(w, a, b, d)
  {
    var m := Entries(a, d, entries);
    forall x: nat ensures Settled(w, a, x) == Settled(w, m, x) {
    }
    forall x: nat | IsStop(w, x) && x != d && (w.rank[x] <= w.rank[d] || w.kind[x] == Input) ensures Same(a, b, x) {
      assert Same(m, b, x);
    }
  }

  // The entry of the button decides alone if there is no other.
  lemma OnlyEntry(entries: map<string, bool>, on: bool)
    requires entries.Keys <= {""}
    ensures AnyOn(entries["" := on]) <==> on
    ensures AnyOn(entries) <==> ("" in entries && entries[""])
  {
    assert on ==> "" in entries["" := on];
    assert "" in entries && entries[""] ==> AnyOn(entries);
  }

  // An update that changes one input and what depends on it leaves everything settled.
  lemma StaysSettled(w: Wiring, a: State, b: State, d: nat)
    requires AllSettled(w, a) && Sound(w, b) && IsStop(w, d) && Step(w, a, b, d)
    requires w.kind[d] == Input && OrSync(w, b, d)
    ensures AllSettled(w, b)
    ensures InputsHold(w, b, a.entries[d := b.entries[d]])
  {
    forall x: nat ensures Settled(w, b, x) && OrSync(w, b, x) {
      assert Settled(w, a, x) && OrSync(w, a, x) && OwnEntry(w, b, x);
      if IsStop(w, x) && w.kind[x] == Input && x != d {
        assert Same(a, b, x);
      }
    }
    forall x: nat | IsStop(w, x) && w.kind[x] == Input ensures b.entries[x] == a.entries[d := b.entries[d]][x] {
      assert x == d || Same(a, b, x);
    }
  }

  class Drawstop {
    const number: nat
    var engaged: bool
    var entries: map<string, bool>

    ghost predicate Holds(s: State)
      reads this
    {
      number < |s.engaged| && number < |s.entries| && engaged == s.engaged[number] && entries == s.entries[number]
    }

    constructor (n: nat, on: bool)
      ensures number == n && engaged == on && entries == map[]
    {
      number := n;
      engaged := on;
      entries := map[];
    }

    // Is some entry on, the one of the button counted only if asked for?
    method CalculateResultState(includeDefault: bool) returns (result: bool)
      ensures result <==> if includeDefault then AnyOn(entries) else AnyOtherOn(entries)
    {
      result := false;
      var names := entries.Keys;
      while names != {}
        invariant names <= entries.Keys
        invariant result <==> exists n :: n in entries && n !in names && (includeDefault || n != "") && entries[n]
        decreases names
      {
        var name :| name in names;
        if includeDefault || name != "" {
          result := result || entries[name];
        }
        names := names - {name};
      }
    }

    // Changes the result and lets everything that is controlled by it follow.
    method SetResultState(o: Switchboard, result: bool)
      requires o.Mirrors() && o.Has(this) && Pending(o.wiring, o.state, number, result)
      modifies o, o.stops
      ensures o.Valid()
      ensures o.state.engaged[number] == result && o.state.entries[number] == old(o.state).entries[number]
      ensures Step(o.wiring, old(o.state), o.state, number)
      decreases o.wiring.top - o.wiring.rank[number], 1
    {
      hide Step, Settled, Updating;
      ghost var s0 := o.state;
      SoundOnce(o.wiring, s0, number, result);
      if engaged != result {
        engaged := result;
        o.state := Engaged(s0, number, result);
        ghost var s1 := o.state;
        UpdatingStarts(o.wiring, s1, number);
        var controlled := o.wiring.controlled[number];
        var i := 0;
        while i < |controlled|
          invariant 0 <= i <= |controlled| && o.Valid()
          invariant Updating(o.wiring, s1, o.state, number, i)
        {
          ghost var before := o.state;
          assert WiredStop(o.wiring, number) && controlled[i] in controlled;
          assert WiredStop(o.wiring, controlled[i]);
          o.stops[controlled[i]].Update(o);
          UpdatingNext(o.wiring, s1, before, o.state, number, i);
          i := i + 1;
        }
        UpdatingDone(o.wiring, s0, o.state, number, result);
        UpdatingSame(o.wiring, s1, o.state, number, i);
      } else {
        NoStep(o.wiring, s0, number);
      }
    }

    // Sets one entry of the internal OR switch.
    method SetInternalState(o: Switchboard, on: bool, name: string)
      requires o.Valid() && o.Has(this)
      requires o.wiring.kind[number] != Input ==> name == ""
      modifies o, o.stops
      ensures o.Valid()
      ensures o.state.entries[number] == old(o.state).entries[number][name := on]
      ensures o.state.engaged[number] ==
              if on == (name in old(entries) && old(entries)[name]) then old(engaged)
                else AnyOn(old(entries)[name := on])
      ensures Step(o.wiring, old(o.state), o.state, number)
      decreases o.wiring.top - o.wiring.rank[number], 2
    {
      hide Step, Settled;
      ghost var s0 := o.state;
      var current := if name in entries then entries[name] else false;
      entries := entries[name := on];
      o.state := Entries(s0, number, entries);
      if current != on {
        var result := CalculateResultState(true);
        EntryPending(o.wiring, s0, number, name, on);
        SetResultState(o, result);
        StepFromEntries(o.wiring, s0, o.state, number, old(entries)[name := on]);
      } else {
        EntryKept(o.wiring, s0, number, name, on);
        NoStep(o.wiring, Entries(s0, number, entries), number);
        StepFromEntries(o.wiring, s0, o.state, number, entries);
      }
    }

    method AllControllingOn(o: Switchboard) returns (state: bool)
      requires o.Valid() && o.Has(this)
      ensures state <==> AllOn(o.state.engaged, o.wiring.controlling[number])
    {
      var ds := o.wiring.controlling[number];
      assert WiredStop(o.wiring, number);
      state := true;
      for i := 0 to |ds|
        invariant state <==> AllOn(o.state.engaged, ds[..i])
      {
        assert ds[..i + 1] == ds[..i] + [ds[i]] && ds[i] in ds;
        AllOnNext(o.state.engaged, ds[..i], ds[i]);
        state := state && o.stops[ds[i]].engaged;
      }
      assert ds[..|ds|] == ds;
    }

    method SomeControllingOn(o: Switchboard) returns (state: bool)
      requires o.Valid() && o.Has(this)
      ensures state <==> SomeOn(o.state.engaged, o.wiring.controlling[number])
    {
      var ds := o.wiring.controlling[number];
      assert WiredStop(o.wiring, number);
      state := false;
      for i := 0 to |ds|
        invariant state <==> SomeOn(o.state.engaged, ds[..i])
      {
        assert ds[..i + 1] == ds[..i] + [ds[i]] && ds[i] in ds;
        SomeOnNext(o.state.engaged, ds[..i], ds[i]);
        state := state || o.stops[ds[i]].engaged;
      }
      assert ds[..|ds|] == ds;
    }

    method OddControllingOn(o: Switchboard) returns (state: bool)
      requires o.Valid() && o.Has(this)
      ensures state <==> OddOn(o.state.engaged, o.wiring.controlling[number])
    {
      var ds := o.wiring.controlling[number];
      assert WiredStop(o.wiring, number);
      state := false;
      for i := 0 to |ds|
        invariant state <==> OddOn(o.state.engaged, ds[..i])
      {
        assert ds[..i + 1][..i] == ds[..i] && ds[i] in ds;
        state := state != o.stops[ds[i]].engaged;
      }
      assert ds[..|ds|] == ds;
    }

    // Recomputes a logic function from the drawstops that control it.
    method Update(o: Switchboard)
      requires o.Valid() && o.Has(this)
      requires o.wiring.kind[number] == Input ==> o.state.entries[number] == map[] || OrSync(o.wiring, o.state, number)
      modifies o, o.stops
      ensures o.Valid()
      ensures Step(o.wiring, old(o.state), o.state, number)
      ensures Settled(o.wiring, o.state, number)
      ensures o.wiring.kind[number] == Input ==>
                o.state.engaged[number] == old(o.state).engaged[number] && OrSync(o.wiring, o.state, number)
      decreases o.wiring.top - o.wiring.rank[number], 3
    {
      hide Step;
      assert WiredStop(o.wiring, number);
      ghost var s0 := o.state;
      var value := engaged;
      match o.wiring.kind[number] {
        case Input =>
        case And => value := AllControllingOn(o);
        case Nand =>
          value := AllControllingOn(o);
          value := !value;
        case Or => value := SomeControllingOn(o);
        case Nor =>
          value := SomeControllingOn(o);
          value := !value;
        case Xor => value := OddControllingOn(o);
        case Not =>
          assert o.wiring.controlling[number][0] in o.wiring.controlling[number];
          value := !o.stops[o.wiring.controlling[number][0]].engaged;
      }
      SetInternalState(o, value, "");
      if o.wiring.kind[number] == Input {
        InputUpdated(s0.entries[number], s0.engaged[number]);
      } else {
        FunctionUpdated(o.wiring, s0, o.state, number, value);
      }
    }

    method SetButtonState(o: Switchboard, on: bool)
      requires o.Valid() && o.Has(this) && AllSettled(o.wiring, o.state)
      modifies o, o.stops
      ensures o.Valid() && AllSettled(o.wiring, o.state)
      ensures InputsHold(o.wiring, o.state, AfterEvent(o.wiring, old(o.state).entries, Button(number, on)))
    {
      hide Step, AllSettled;
      InputsStart(o.wiring, o.state);
      AboutStop(o.wiring, o.state, number);
      if !o.wiring.readOnly[number] {
        var others := CalculateResultState(false);
        if !others {
          SetEntry(o, on, "");
        } else {
          assert o.state.entries == o.state.entries[number := entries];
        }
      }
    }

    method SetCombinationState(o: Switchboard, on: bool, name: string)
      requires o.Valid() && o.Has(this) && AllSettled(o.wiring, o.state)
      modifies o, o.stops
      ensures o.Valid() && AllSettled(o.wiring, o.state)
      ensures InputsHold(o.wiring, o.state, AfterEvent(o.wiring, old(o.state).entries, Combination(number, name, on)))
    {
      hide Step, AllSettled;
      InputsStart(o.wiring, o.state);
      AboutStop(o.wiring, o.state, number);
      if !o.wiring.readOnly[number] {
        SetEntry(o, on, name);
      }
    }

    // SetInternalState on an input of a settled switchboard.
    method SetEntry(o: Switchboard, on: bool, name: string)
      requires o.Valid() && o.Has(this) && AllSettled(o.wiring, o.state) && o.wiring.kind[number] == Input
      modifies o, o.stops
      ensures o.Valid() && AllSettled(o.wiring, o.state)
      ensures InputsHold(o.wiring, o.state, old(o.state).entries[number := old(o.state).entries[number][name := on]])
    {
      hide Step, AllSettled;
      ghost var s0 := o.state;
      AboutStop(o.wiring, s0, number);
      SetInternalState(o, on, name);
      EntryDecides(s0.entries[number], name, on);
      StaysSettled(o.wiring, s0, o.state, number);
    }

    // General cancel.
    method Reset(o: Switchboard)
      requires o.Valid() && o.Has(this) && AllSettled(o.wiring, o.state)
      modifies o, o.stops
      ensures o.Valid() && AllSettled(o.wiring, o.state)
      ensures InputsHold(o.wiring, o.state, AfterEvent(o.wiring, old(o.state).entries, Event.Reset(number)))
    {
      hide Step, AllSettled;
      InputsStart(o.wiring, o.state);
      AboutStop(o.wiring, o.state, number);
      if !o.wiring.readOnly[number] && o.wiring.gcState[number] >= 0 {
        if o.wiring.gcState[number] == 0 {
          ghost var s0 := o.state;
          entries := map name | name in entries :: false;
          o.state := Entries(s0, number, entries);
          ClearedPending(o.wiring, s0, number);
          SetResultState(o, false);
          StepFromEntries(o.wiring, s0, o.state, number, AllOff(s0.entries[number]));
          StaysSettled(o.wiring, s0, o.state, number);
        } else {
          SetButtonState(o, true);
        }
      }
    }
  }

  // ---------- facts used by the methods ----------

  lemma AllOnNext(engaged: seq<bool>, ds: seq<nat>, d: nat)
    ensures AllOn(engaged, ds + [d]) <==> AllOn(engaged, ds) && d < |engaged| && engaged[d]
  {
    if AllOn(engaged, ds + [d]) {
      forall c: nat | c in ds ensures c < |engaged| && engaged[c] {
        assert c in ds + [d];
      }
      assert d in ds + [d];
    }
  }

  lemma SomeOnNext(engaged: seq<bool>, ds: seq<nat>, d: nat)
    ensures SomeOn(engaged, ds + [d]) <==> SomeOn(engaged, ds) || (d < |engaged| && engaged[d])
  {
    assert forall c :: c in ds + [d] <==> c in ds || c == d;
  }

  lemma AboutStop(w: Wiring, s: State, d: nat)
    requires AllSettled(w, s) && IsStop(w, d)
    ensures OrSync(w, s, d) && Sound(w, s)
    ensures !w.readOnly[d] ==> w.kind[d] == Input
  {
    assert WiredStop(w, d);
  }

  lemma SoundOnce(w: Wiring, s: State, d: nat, result: bool)
    requires Pending(w, s, d, result)
    ensures Sound(w, Engaged(s, d, result))
    ensures s.engaged[d] == result ==> Sound(w, s)
  {
    var b := Engaged(s, d, result);
    forall x: nat ensures OwnEntry(w, b, x) && (s.engaged[d] == result ==> OwnEntry(w, s, x)) {
      assert x != d ==> OwnEntry(w, s, x);
    }
  }

  lemma NoStep(w: Wiring, s: State, d: nat)
    requires Fits(w, s) && IsStop(w, d)
    ensures Step(w, s, s, d)
  {
  }

  lemma UpdatingSame(w: Wiring, s1: State, s: State, d: nat, i: nat)
    requires Fits(w, s1) && Fits(w, s) && IsStop(w, d) && Updating(w, s1, s, d, i)
    ensures Same(s1, s, d)
  {
  }

  lemma EntryPending(w: Wiring, s: State, d: nat, name: string, on: bool)
    requires Sound(w, s) && IsStop(w, d) && (w.kind[d] != Input ==> name == "")
    ensures var e := s.entries[d][name := on]; Pending(w, Entries(s, d, e), d, AnyOn(e))
  {
    var m := Entries(s, d, s.entries[d][name := on]);
    assert OwnEntry(w, s, d);
    forall x: nat | x != d ensures OwnEntry(w, m, x) {
      assert OwnEntry(w, s, x);
    }
  }

  // Storing what an entry holds already (off if it is missing) changes no result.
  lemma EntryKept(w: Wiring, s: State, d: nat, name: string, on: bool)
    requires Sound(w, s) && IsStop(w, d) && (w.kind[d] != Input ==> name == "")
    requires on == (name in s.entries[d] && s.entries[d][name])
    ensures Sound(w, Entries(s, d, s.entries[d][name := on]))
  {
    var e := s.entries[d];
    var m := Entries(s, d, e[name := on]);
    SameAny(e, name, on);
    forall x: nat ensures OwnEntry(w, m, x) {
      assert OwnEntry(w, s, x);
    }
  }

  lemma SameAny(e: map<string, bool>, name: string, on: bool)
    requires on == (name in e && e[name])
    ensures AnyOn(e[name := on]) <==> AnyOn(e)
  {
    var f := e[name := on];
    assert forall n :: n in e && e[n] ==> n in f && f[n];
    assert forall n :: n in f && f[n] ==> n in e && e[n];
  }

  lemma EntryDecides(e: map<string, bool>, name: string, on: bool)
    ensures on == (name in e && e[name]) ==> (AnyOn(e[name := on]) <==> AnyOn(e))
  {
    if on == (name in e && e[name]) {
      SameAny(e, name, on);
    }
  }

  // Updating an input keeps its result.
  lemma InputUpdated(e: map<string, bool>, engaged: bool)
    requires e == map[] || (engaged <==> AnyOn(e))
    ensures AnyOn(e["" := engaged]) <==> engaged
  {
    if engaged {
      assert "" in e["" := engaged];
    } else {
      assert forall n :: n in e["" := engaged] && e["" := engaged][n] ==> n in e && e[n];
    }
  }

  lemma FunctionUpdated(w: Wiring, a: State, b: State, d: nat, value: bool)
    requires Sound(w, a) && Sound(w, b) && IsStop(w, d) && w.kind[d] != Input
    requires value <==> Function(w, a.engaged, d)
    requires b.entries[d] == a.entries[d]["" := value]
    requires Step(w, a, b, d)
    ensures Settled(w, b, d)
  {
    assert WiredStop(w, d) && OwnEntry(w, a, d) && OwnEntry(w, b, d);
    OnlyEntry(a.entries[d], value);
    forall c | c in w.controlling[d] ensures a.engaged[c] == b.engaged[c] {
      assert Same(a, b, c);
    }
    SameFunction(w, a.engaged, b.engaged, d);
  }

  lemma ClearedPending(w: Wiring, s: State, d: nat)
    requires Sound(w, s) && IsStop(w, d)
    ensures Pending(w, Entries(s, d, AllOff(s.entries[d])), d, false)
  {
    var m := Entries(s, d, AllOff(s.entries[d]));
    assert OwnEntry(w, s, d);
    forall x: nat | x != d ensures OwnEntry(w, m, x) {
      assert OwnEntry(w, s, x);
    }
  }
}
