// Inserting and deleting frames of the sequencer in place.
module Sequencer {
  import opened Arithmetic

  datatype Element = Default | Off | On

  // A combination.  Copying a combination copies the states of the elements only.
  datatype Frame = Frame(states: seq<Element>, isFull: bool, hasScope: bool, isProtected: bool) {
    predicate IsEmpty() {
      forall k :: 0 <= k < |states| ==> states[k] == Default
    }

    function Copied(from: Frame): Frame {
      this.(states := from.states)
    }
  }

  function Inserted(f: seq<Frame>, pos: nat): (g: seq<Frame>)
    ensures |g| == |f|
  {
    seq(|f|, j requires 0 <= j < |f| => if j <= pos then f[j] else f[j].Copied(f[j - 1]))
  }

  function Deleted(f: seq<Frame>, pos: nat): (g: seq<Frame>)
    ensures |g| == |f|
  {
    seq(|f|, j requires 0 <= j < |f| => if pos <= j < |f| - 1 then f[j].Copied(f[j + 1]) else f[j])
  }

  // Frame `k` while the frames from a position on are being moved one down or one up; `j` is
  // the next one.
  function Lowered(f: seq<Frame>, pos: nat, j: nat, k: nat): Frame
    requires j < |f| && k < |f|
  {
    if pos <= k < j then f[k].Copied(f[k + 1]) else f[k]
  }

  function Raised(f: seq<Frame>, j: nat, k: nat): Frame
    requires k < |f|
  {
    if k > j then f[k].Copied(f[k - 1]) else f[k]
  }

  // ---------- storing and recalling a registration ----------

  datatype SetterType = Regular | Scope | Scoped

  // Which elements are on, which of them are always stored, and the state of the setter.
  datatype Registration = Registration(on: seq<bool>, always: seq<bool>, kind: SetterType, storeInvisible: bool)

  // What is stored of element `k`, whose state was `was`.
  function StoredState(r: Registration, was: Element, k: nat): Element
    requires k < |r.on| == |r.always|
  {
    match r.kind
    case Regular => if !r.storeInvisible && !r.always[k] then Default else if r.on[k] then On else Off
    case Scope => if !r.storeInvisible && !r.always[k] then Default else if r.on[k] then On else Default
    case Scoped => if was == Default then Default else if r.on[k] then On else Off
  }

  // The combination after the registration has been stored in it.
  function Filled(f: Frame, r: Registration): (g: Frame)
    requires |f.states| == |r.on| == |r.always|
    ensures |g.states| == |f.states|
  {
    f.(states := seq(|f.states|, k requires 0 <= k < |f.states| => StoredState(r, f.states[k], k)),
       isFull := r.storeInvisible, hasScope := r.kind != Regular)
  }

  predicate Uses(f: Frame) {
    exists k :: 0 <= k < |f.states| && f.states[k] == On
  }

  // Which elements are on after the combination has been recalled.
  function Recalled(f: Frame, on: seq<bool>): (now: seq<bool>)
    requires |f.states| == |on|
    ensures |now| == |on|
  {
    seq(|on|, k requires 0 <= k < |on| => if f.states[k] == Default then on[k] else f.states[k] == On)
  }

  // Storing a registration and recalling it later, whatever is on then: a regular combination
  // gives all elements back that are stored, one with a scope switches on those that were on,
  // and a scoped one gives back exactly the elements of its scope.  All others stay.
  lemma StoreThenRecall(f: Frame, r: Registration, later: seq<bool>, k: nat)
    requires |f.states| == |r.on| == |r.always| == |later| && k < |later|
    ensures var stored := r.storeInvisible || r.always[k];
            Recalled(Filled(f, r), later)[k] ==
              match r.kind
              case Regular => if stored then r.on[k] else later[k]
              case Scope => later[k] || (stored && r.on[k])
              case Scoped => if f.states[k] == Default then later[k] else r.on[k]
  {
  }

  predicate Stores(f: Frame, r: Registration, k: nat)
    requires k < |f.states| == |r.always|
  {
    if r.kind == Scoped then f.states[k] != Default else r.storeInvisible || r.always[k]
  }

  // Storing marks a modification exactly if some element is stored as on: one that is on now and
  // is stored at all.
  lemma StoredAsOn(f: Frame, r: Registration)
    requires |f.states| == |r.on| == |r.always|
    ensures Uses(Filled(f, r)) <==> exists k :: 0 <= k < |r.on| && r.on[k] && Stores(f, r, k)
  {
    var g := Filled(f, r);
    if k :| 0 <= k < |r.on| && r.on[k] && Stores(f, r, k) {
      assert g.states[k] == On;
    }
    if Uses(g) {
      var k :| 0 <= k < |g.states| && g.states[k] == On;
      assert r.on[k];
    }
  }

  // While Set is active, pushing a combination stores the current registration in it.
  function Pushed(f: seq<Frame>, pos: nat, isSetActive: bool, r: Registration): (g: seq<Frame>)
    requires pos < |f| && |f[pos].states| == |r.on| == |r.always|
    ensures |g| == |f|
  {
    if isSetActive && !f[pos].isProtected then f[pos := Filled(f[pos], r)] else f
  }

  // Some frame of a range is not empty.
  predicate AnyFilled(f: seq<Frame>, lo: nat, hi: nat)
    requires lo <= hi <= |f|
  {
    exists k :: lo <= k < hi && !f[k].IsEmpty()
  }

  lemma OneMore(f: seq<Frame>, lo: nat, k: nat)
    requires lo <= k < |f|
    ensures AnyFilled(f, lo, k + 1) <==> AnyFilled(f, lo, k) || !f[k].IsEmpty()
    ensures !AnyFilled(f, lo, lo)
  {
  }

  lemma OneBefore(f: seq<Frame>, k: nat)
    requires k < |f|
    ensures AnyFilled(f, k, |f|) <==> AnyFilled(f, k + 1, |f|) || !f[k].IsEmpty()
    ensures !AnyFilled(f, |f|, |f|)
  {
  }

  // At least two frames from a position on, one of them not empty.
  predicate Shifts(f: seq<Frame>, pos: nat) {
    pos + 2 <= |f| && AnyFilled(f, pos, |f|)
  }

  // Some element of a frame from there on has a state, and there are at least two such frames.
  lemma ShiftsExactly(f: seq<Frame>, pos: nat)
    ensures Shifts(f, pos) <==>
              && pos + 1 < |f|
              && exists k, s :: pos <= k < |f| && 0 <= s < |f[k].states| && f[k].states[s] != Default
  {
    if Shifts(f, pos) {
      var k :| pos <= k < |f| && !f[k].IsEmpty();
      assert exists s :: 0 <= s < |f[k].states| && f[k].states[s] != Default;
    }
  }

  lemma AllRaised(was: seq<Frame>, pos: nat, now: seq<Frame>)
    requires |now| == |was| && forall k :: 0 <= k < |was| ==> now[k] == Raised(was, pos, k)
    ensures now == Inserted(was, pos)
  {
  }

  lemma AllLowered(was: seq<Frame>, pos: nat, now: seq<Frame>)
    requires 0 < |now| == |was| && forall k :: 0 <= k < |was| ==> now[k] == Lowered(was, pos, |was| - 1, k)
    ensures now == Deleted(was, pos)
  {
  }

  predicate AllSized(f: seq<Frame>, size: nat) {
    forall k :: 0 <= k < |f| ==> |f[k].states| == size
  }

  lemma SizesKept(f: seq<Frame>, pos: nat, size: nat)
    requires AllSized(f, size)
    ensures AllSized(Inserted(f, pos), size) && AllSized(Deleted(f, pos), size)
  {
  }

  // One element more has been looked at.
  lemma OnSoFar(was: seq<Element>, now: seq<Element>, i: nat)
    requires i < |was| == |now| && forall k :: 0 <= k < i ==> was[k] == now[k]
    ensures (exists k :: 0 <= k < i + 1 && now[k] == On) <==> (exists k :: 0 <= k < i && was[k] == On) || now[i] == On
  {
    if k :| 0 <= k < i && was[k] == On {
      assert now[k] == On;
    }
  }

  class GOSetter {
    const frames: array<Frame>
    // the number of elements of a combination
    const size: nat
    var pos: nat
    var isSetActive: bool
    var isModified: bool

    ghost predicate Valid()
      reads this, frames
    {
      pos < frames.Length && AllSized(frames[..], size)
    }

    ghost predicate Fits(r: Registration) {
      |r.on| == |r.always| == size
    }

    // The combinations have been loaded, so that every element has a state.
    constructor (content: array<Frame>, elements: nat)
      requires content.Length > 0 && AllSized(content[..], elements)
      ensures Valid() && frames == content && size == elements && pos == 0 && !isSetActive && !isModified
    {
      frames, size, pos, isSetActive, isModified := content, elements, 0, false, false;
    }

    method CopyFrameGenerals(fromIdx: nat, toIdx: nat, changedBefore: bool) returns (changed: bool)
      requires fromIdx < frames.Length && toIdx < frames.Length
      modifies frames
      ensures forall k :: 0 <= k < frames.Length ==>
                frames[k] == if k == toIdx then old(frames[toIdx]).Copied(old(frames[fromIdx])) else old(frames[k])
      ensures changed == (changedBefore || !old(frames[toIdx]).IsEmpty() || !old(frames[fromIdx]).IsEmpty())
    {
      changed := changedBefore || !frames[toIdx].IsEmpty() || !frames[fromIdx].IsEmpty();
      frames[toIdx] := frames[toIdx].Copied(frames[fromIdx]);
    }

    method NotifyCmbPushed(isChanged: bool, isForceSet: bool)
      modifies this`isModified
      ensures isModified == (old(isModified) || (isChanged && (isSetActive || isForceSet)))
    {
      if isChanged && (isSetActive || isForceSet) && !isModified {
        isModified := true;
      }
    }

    // The three loops that store a registration.
    method FillWithCurrent(f: Frame, r: Registration) returns (g: Frame, used: bool)
      requires Fits(r) && |f.states| == size
      ensures g == Filled(f, r) && used == Uses(g)
    {
      var states := f.states;
      used := false;
      var i := 0;
      while i < size
        invariant 0 <= i <= size == |states|
        invariant forall k :: 0 <= k < i ==> states[k] == StoredState(r, f.states[k], k)
        invariant forall k :: i <= k < size ==> states[k] == f.states[k]
        invariant used <==> exists k :: 0 <= k < i && states[k] == On
      {
        ghost var was := states;
        match r.kind {
          case Regular =>
            if !r.storeInvisible && !r.always[i] {
              states := states[i := Default];
            } else if r.on[i] {
              states, used := states[i := On], true;
            } else {
              states := states[i := Off];
            }
          case Scope =>
            if !r.storeInvisible && !r.always[i] {
              states := states[i := Default];
            } else if r.on[i] {
              states, used := states[i := On], true;
            } else {
              states := states[i := Default];
            }
          case Scoped =>
            if states[i] != Default {
              if r.on[i] {
                states, used := states[i := On], true;
              } else {
                states := states[i := Off];
              }
            }
        }
        OnSoFar(was, states, i);
        i := i + 1;
      }
      g := f.(states := states, isFull := r.storeInvisible, hasScope := r.kind != Regular);
      assert g.states == Filled(f, r).states;
    }

    // Recalls a combination: every element that it mentions is switched.
    method Recall(f: Frame, on: seq<bool>) returns (now: seq<bool>, used: bool)
      requires |f.states| == |on| == size
      ensures now == Recalled(f, on) && used == Uses(f)
    {
      now, used := on, false;
      for i := 0 to size
        invariant |now| == size
        invariant forall k :: 0 <= k < i ==> now[k] == if f.states[k] == Default then on[k] else f.states[k] == On
        invariant forall k :: i <= k < size ==> now[k] == on[k]
        invariant used <==> exists k :: 0 <= k < i && f.states[k] == On
      {
        OnSoFar(f.states, f.states, i);
        if f.states[i] != Default {
          now := now[i := f.states[i] == On];
          used := used || f.states[i] == On;
        }
      }
      assert now == Recalled(f, on);
    }

    // Pushes the combination at the position; `on` tells which elements are on afterwards.
    method PushGeneral(r: Registration) returns (on: seq<bool>)
      requires Valid() && Fits(r)
      modifies this`isModified, frames
      ensures Valid() && frames[..] == Pushed(old(frames[..]), pos, isSetActive, r)
      ensures on == if isSetActive then r.on else Recalled(old(frames[pos]), r.on)
      ensures isModified == (old(isModified) || (isSetActive && !old(frames[pos]).isProtected && Uses(frames[pos])))
    {
      hide Filled, Recalled, Uses;
      on := r.on;
      var used := false;
      if isSetActive {
        if !frames[pos].isProtected {
          var stored;
          stored, used := FillWithCurrent(frames[pos], r);
          frames[pos] := stored;
        }
      } else {
        on, used := Recall(frames[pos], r.on);
      }
      NotifyCmbPushed(used, false);
    }

    method SetPosition(newPos: int, push: bool, r: Registration) returns (on: seq<bool>)
      requires Valid() && Fits(r)
      modifies this`pos, this`isModified, frames
      ensures Valid() && pos == newPos % frames.Length
      ensures frames[..] == if push then Pushed(old(frames[..]), pos, isSetActive, r) else old(frames[..])
      ensures on == if push && !isSetActive then Recalled(old(frames[..])[pos], r.on) else r.on
      ensures isModified == (old(isModified)
              || (push && isSetActive && !old(frames[..])[pos].isProtected && Uses(frames[pos])))
    {
      hide Filled, Recalled, Uses;
      var p := newPos;
      ghost var rounds: int := 0;
      while p < 0
        invariant p == newPos + rounds * frames.Length && (p < frames.Length || p == newPos)
        decreases -p
      {
        assert (rounds + 1) * frames.Length == rounds * frames.Length + frames.Length;
        p, rounds := p + frames.Length, rounds + 1;
      }
      while p >= frames.Length
        invariant p == newPos + rounds * frames.Length && p >= 0
        decreases p
      {
        assert (rounds - 1) * frames.Length == rounds * frames.Length - frames.Length;
        p, rounds := p - frames.Length, rounds - 1;
      }
      RemainderIs(newPos, rounds, frames.Length, p);
      pos := p;
      on := r.on;
      if push {
        on := PushGeneral(r);
      }
    }

    method Delete()
      requires Valid()
      modifies this`isModified, frames
      ensures Valid() && frames[..] == Deleted(old(frames[..]), pos)
      ensures isModified == (old(isModified) || Shifts(old(frames[..]), pos))
    {
      var changed := ShiftDown();
      NotifyCmbPushed(changed, true);
    }

    method ShiftDown() returns (changed: bool)
      requires Valid()
      modifies frames
      ensures Valid() && frames[..] == Deleted(old(frames[..]), pos) && changed == Shifts(old(frames[..]), pos)
    {
      hide AnyFilled, Inserted, Deleted, Frame.IsEmpty, Frame.Copied;
      ghost var was := frames[..];
      changed := false;
      var j := pos;
      while j < frames.Length - 1
        invariant pos <= j <= frames.Length - 1
        invariant forall k :: 0 <= k < frames.Length ==> frames[k] == Lowered(was, pos, j, k)
        invariant changed == (j > pos && AnyFilled(was, pos, j + 1))
      {
        OneMore(was, pos, j + 1);
        OneMore(was, pos, j);
        OneMore(was, pos, pos);
        changed := CopyFrameGenerals(j + 1, j, changed);
        j := j + 1;
      }
      AllLowered(was, pos, frames[..]);
      SizesKept(was, pos, size);
    }

    // Makes room for a frame at the position and pushes there.
    method Insert(r: Registration) returns (on: seq<bool>)
      requires Valid() && Fits(r)
      modifies this`pos, this`isModified, frames
      ensures Valid() && pos == old(pos) && |Inserted(old(frames[..]), pos)[pos].states| == size
      ensures frames[..] == Pushed(Inserted(old(frames[..]), pos), pos, isSetActive, r)
      ensures on == if isSetActive then r.on else Recalled(old(frames[pos]), r.on)
      ensures isModified == (old(isModified) || Shifts(old(frames[..]), pos)
              || (isSetActive && !old(frames[pos]).isProtected && Uses(frames[pos])))
    {
      hide Inserted, Shifts, Pushed, Recalled, Uses;
      var changed := ShiftUp();
      InsertedAt(old(frames[..]), pos, pos);
      assert frames[..][pos] == old(frames[..])[pos];
      Small(pos, frames.Length);
      on := SetPosition(pos, true, r);
      NotifyCmbPushed(changed, true);
    }

    method ShiftUp() returns (changed: bool)
      requires Valid()
      modifies frames
      ensures Valid() && frames[..] == Inserted(old(frames[..]), pos) && changed == Shifts(old(frames[..]), pos)
    {
      hide AnyFilled, Inserted, Deleted, Frame.IsEmpty, Frame.Copied;
      ghost var was := frames[..];
      changed := false;
      var j := frames.Length - 1;
      while j > pos
        invariant pos <= j <= frames.Length - 1
        invariant forall k :: 0 <= k < frames.Length ==> frames[k] == Raised(was, j, k)
        invariant changed == (j < frames.Length - 1 && AnyFilled(was, j, frames.Length))
      {
        OneBefore(was, j - 1);
        OneBefore(was, j);
        OneBefore(was, frames.Length - 1);
        changed := CopyFrameGenerals(j - 1, j, changed);
        j := j - 1;
      }
      AllRaised(was, pos, frames[..]);
      SizesKept(was, pos, size);
    }
  }

  lemma Small(p: nat, n: nat)
    requires p < n
    ensures p % n == p
  {
  }

  lemma RemainderIs(x: int, k: int, n: nat, p: nat)
    requires n > 0 && p < n && p == x + k * n
    ensures p == x % n
  {
    assert x == -k * n + p;
    Remainder(x, -k, n, p);
  }

  lemma InsertedAt(f: seq<Frame>, pos: nat, j: nat)
    requires j < |f|
    ensures Inserted(f, pos)[j] == if j <= pos then f[j] else f[j].Copied(f[j - 1])
  {
  }

  lemma DeletedAt(f: seq<Frame>, pos: nat, j: nat)
    requires j < |f|
    ensures Deleted(f, pos)[j] == if pos <= j < |f| - 1 then f[j].Copied(f[j + 1]) else f[j]
  {
  }

  // Insert, a push and Delete.
  function Undone(f: seq<Frame>, pos: nat, isSetActive: bool, r: Registration): (g: seq<Frame>)
    requires pos < |f| && |f[pos].states| == |r.on| == |r.always|
    ensures |g| == |f|
  {
    InsertedAt(f, pos, pos);
    Deleted(Pushed(Inserted(f, pos), pos, isSetActive, r), pos)
  }

  // Insert and then Delete at the same position give back the states of every frame but the
  // last, whatever Set stores in between; the last one has the states of the one before it.
  // The flags of a frame do not move with its states: they stay as they are at every other
  // position, and at this one unless Set has stored something there.
  lemma DeleteUndoesInsert(f: seq<Frame>, pos: nat, isSetActive: bool, r: Registration, j: nat)
    requires pos < |f| && j < |f| && |f[pos].states| == |r.on| == |r.always|
    ensures var g := Undone(f, pos, isSetActive, r);
            && (j < |f| - 1 ==> g[j].states == f[j].states)
            && (pos < |f| - 1 ==> g[|f| - 1].states == f[|f| - 2].states)
            && (g[j] == f[j].(states := g[j].states)
                <==> || j != pos
                     || !isSetActive
                     || f[j].isProtected
                     || (r.storeInvisible == f[j].isFull && (r.kind != Regular) == f[j].hasScope))
  {
    hide Inserted, Deleted;
    var n := |f|;
    var a := Inserted(f, pos);
    InsertedAt(f, pos, pos);
    var b := Pushed(a, pos, isSetActive, r);
    InsertedAt(f, pos, j);
    InsertedAt(f, pos, n - 1);
    DeletedAt(b, pos, j);
    DeletedAt(b, pos, n - 1);
    if j + 1 < n {
      InsertedAt(f, pos, j + 1);
    }
  }

  // Insert moves a whole combination if and only if its flags are those of the next frame.
  lemma InsertMovesFlags(f: seq<Frame>, pos: nat, j: nat)
    requires pos < j < |f|
    ensures Inserted(f, pos)[j] == f[j - 1]
       <==> && f[j].isFull == f[j - 1].isFull
            && f[j].hasScope == f[j - 1].hasScope
            && f[j].isProtected == f[j - 1].isProtected
  {
    hide Inserted;
    InsertedAt(f, pos, j);
  }
}
