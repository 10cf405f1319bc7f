// Steps repeated from a state.  When do they come to an end?
module Orbits {
  import opened Options
  import opened Sets

  // The state after `n` steps, if that many are possible.
  function After<T>(step: T -> Option<T>, x: T, n: nat): Option<T> {
    if n == 0 then Some(x)
    else
      var next := step(x);
      if next == None then None else After(step, next.value, n - 1)
  }

  ghost predicate Ends<T>(step: T -> Option<T>, x: T) {
    exists n: nat :: After(step, x, n) == None
  }

  // Some state is reached twice.
  ghost predicate Returns<T>(step: T -> Option<T>, x: T) {
    exists i: nat, j: nat :: i < j && After(step, x, i) != None && After(step, x, i) == After(step, x, j)
  }

  ghost predicate Closed<T>(step: T -> Option<T>, s: set<T>) {
    forall x :: x in s && step(x) != None ==> step(x).value in s
  }

  lemma {:induction false} Further<T>(step: T -> Option<T>, x: T, i: nat, j: nat)
    ensures After(step, x, i + j) == if After(step, x, i) == None then None else After(step, After(step, x, i).value, j)
  {
    if i > 0 && step(x) != None {
      Further(step, step(x).value, i - 1, j);
    }
  }

  // From a state that returns to itself any number of steps is possible.
  lemma {:induction false} CycleGoesOn<T>(step: T -> Option<T>, x: T, period: nat, n: nat)
    requires period > 0 && After(step, x, period) == Some(x)
    ensures After(step, x, n) != None
    decreases n
  {
    if n < period {
      Further(step, x, n, period - n);
    } else {
      Further(step, x, period, n - period);
      CycleGoesOn(step, x, period, n - period);
    }
  }

  lemma ReturnGoesOn<T>(step: T -> Option<T>, x: T, i: nat, j: nat, n: nat)
    requires i < j && After(step, x, i) != None && After(step, x, i) == After(step, x, j)
    ensures After(step, x, n) != None
  {
    if n < i {
      Further(step, x, n, i - n);
    } else {
      Further(step, x, i, j - i);
      Further(step, x, i, n - i);
      CycleGoesOn(step, After(step, x, i).value, j - i, n - i);
    }
  }

  lemma {:induction false} StaysIn<T>(step: T -> Option<T>, x: T, s: set<T>, n: nat)
    requires Closed(step, s) && x in s
    ensures After(step, x, n) != None ==> After(step, x, n).value in s
  {
    if n > 0 && step(x) != None {
      StaysIn(step, step(x).value, s, n - 1);
    }
  }

  lemma EndsBefore<T>(step: T -> Option<T>, x: T)
    requires step(x) != None && Ends(step, step(x).value)
    ensures Ends(step, x)
  {
    var n: nat :| After(step, step(x).value, n) == None;
    assert After(step, x, n + 1) == None;
  }

  ghost predicate Reached<T>(step: T -> Option<T>, x: T, n: nat, y: T) {
    exists k: nat :: k < n && After(step, x, k) == Some(y)
  }

  // The states of the first `n` steps, all different.
  lemma {:induction false} Visited<T>(step: T -> Option<T>, x: T, s: set<T>, n: nat) returns (v: set<T>)
    requires Closed(step, s) && x in s && !Returns(step, x)
    requires forall k: nat :: k < n ==> After(step, x, k) != None
    ensures |v| == n && v <= s
    ensures forall y :: y in v ==> Reached(step, x, n, y)
  {
    if n == 0 {
      return {};
    }
    var before := Visited(step, x, s, n - 1);
    var last := After(step, x, n - 1).value;
    StaysIn(step, x, s, n - 1);
    assert After(step, x, n - 1) == Some(last) && last !in before;
    v := before + {last};
    forall y | y in v ensures Reached(step, x, n, y) {
      if y in before {
        assert Reached(step, x, n - 1, y);
      }
    }
  }

  // In a finite set of states as many steps as there are states decide: if they are possible,
  // any number is.
  lemma EndsSoon<T>(step: T -> Option<T>, x: T, s: set<T>, n: nat)
    requires Closed(step, s) && x in s && After(step, x, |s|) != None
    ensures After(step, x, n) != None
  {
    if !Returns(step, x) {
      forall k: nat | k < |s| + 1 ensures After(step, x, k) != None {
        Further(step, x, k, |s| - k);
      }
      var v := Visited(step, x, s, |s| + 1);
      SubsetSize(v, s);
    } else {
      var i: nat, j: nat :| i < j && After(step, x, i) != None && After(step, x, i) == After(step, x, j);
      ReturnGoesOn(step, x, i, j, n);
    }
  }

  // In a finite set of states the steps end exactly if no state is reached twice.
  lemma EndsExactly<T>(step: T -> Option<T>, x: T, s: set<T>)
    requires Closed(step, s) && x in s
    ensures Ends(step, x) <==> !Returns(step, x)
  {
    if Returns(step, x) {
      var i: nat, j: nat :| i < j && After(step, x, i) != None && After(step, x, i) == After(step, x, j);
      forall n: nat ensures After(step, x, n) != None {
        ReturnGoesOn(step, x, i, j, n);
      }
    } else if !Ends(step, x) {
      var v := Visited(step, x, s, |s| + 1);
      SubsetSize(v, s);
    }
  }
}
