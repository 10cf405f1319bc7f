// Adding MIDI devices to a list in which logical names are unique.
module DeviceNames {

  import opened Options
  import opened Sets

  // `physical` is the name of the device that is matched; it is empty if none is.
  datatype Device = Device(logical: string, physical: string, channelShift: nat)

  // ---------- numbers as text ----------

  function Digit(d: nat): (c: char)
    requires d < 10
  {
    '0' + d as char
  }

  function Decimal(n: nat): (s: string)
    ensures s != "" && (|s| == 1 <==> n < 10)
  {
    if n < 10 then [Digit(n)] else Decimal(n / 10) + [Digit(n % 10)]
  }

  lemma {:induction false} DecimalInjective(a: nat, b: nat)
    requires Decimal(a) == Decimal(b)
    ensures a == b
  {
    var s := Decimal(a);
    assert s[|s| - 1] == Digit(a % 10) && s[|s| - 1] == Digit(b % 10);
    if a >= 10 && b >= 10 {
      assert s[..|s| - 1] == Decimal(a / 10) == Decimal(b / 10);
      DecimalInjective(a / 10, b / 10);
    }
  }

  // The value of a text of digits.
  function Value(s: string): int {
    if s == "" then 0 else 10 * Value(s[..|s| - 1]) + s[|s| - 1] as int - '0' as int
  }

  lemma {:induction false} DecimalValue(n: nat)
    ensures Value(Decimal(n)) == n && forall k :: 0 <= k < |Decimal(n)| ==> '0' <= Decimal(n)[k] <= '9'
    ensures n > 0 ==> Decimal(n)[0] != '0'
  {
    if n >= 10 {
      DecimalValue(n / 10);
      assert Decimal(n)[..|Decimal(n)| - 1] == Decimal(n / 10);
    } else {
      assert Decimal(n)[..0] == "";
    }
  }

  function Suffixed(name: string, n: nat): string {
    name + "-" + Decimal(n)
  }

  lemma SuffixedInjective(name: string, a: nat, b: nat)
    requires Suffixed(name, a) == Suffixed(name, b)
    ensures a == b
  {
    assert Suffixed(name, a)[|name| + 1..] == Decimal(a);
    assert Suffixed(name, b)[|name| + 1..] == Decimal(b);
    DecimalInjective(a, b);
  }

  // ---------- the list ----------

  function Names(list: seq<Device>): (s: set<string>) {
    set k | 0 <= k < |list| :: list[k].logical
  }

  predicate Distinct(list: seq<Device>) {
    forall j, k :: 0 <= j < k < |list| ==> list[j].logical != list[k].logical
  }

  lemma {:induction false} AtMost(list: seq<Device>)
    ensures |Names(list)| <= |list|
  {
    if list != [] {
      var before := list[..|list| - 1];
      AtMost(before);
      assert Names(list) == Names(before) + {list[|list| - 1].logical};
    }
  }

  // The first `n` suffixed names.
  function Tried(name: string, n: nat): set<string> {
    if n == 0 then {} else Tried(name, n - 1) + {Suffixed(name, n)}
  }

  lemma {:induction false} TriedAre(list: seq<Device>, name: string, n: nat)
    requires forall k :: 1 <= k <= n ==> Suffixed(name, k) in Names(list)
    ensures Tried(name, n) <= Names(list) && name !in Tried(name, n)
  {
    hide Names, Decimal;
    if n > 0 {
      TriedAre(list, name, n - 1);
      assert |Suffixed(name, n)| > |name|;
    }
  }

  lemma {:induction false} NotYetTried(name: string, n: nat, m: nat)
    requires m > n
    ensures Suffixed(name, m) !in Tried(name, n)
  {
    hide Suffixed;
    if n > 0 {
      NotYetTried(name, n - 1, m);
      if Suffixed(name, m) == Suffixed(name, n) {
        SuffixedInjective(name, m, n);
      }
    }
  }

  lemma {:induction false} TriedCount(name: string, n: nat)
    ensures |Tried(name, n)| == n
  {
    hide Suffixed;
    if n > 0 {
      TriedCount(name, n - 1);
      NotYetTried(name, n - 1, n);
    }
  }

  // Not more names can be in use than there are devices.
  lemma Pigeonhole(list: seq<Device>, name: string, n: nat)
    requires name in Names(list) && forall k :: 1 <= k <= n ==> Suffixed(name, k) in Names(list)
    ensures n < |list|
  {
    hide Names, Tried, Suffixed;
    AtMost(list);
    TriedCount(name, n);
    TriedAre(list, name, n);
    SubsetSize(Tried(name, n) + {name}, Names(list));
  }

  // ---------- adding a device ----------

  function FirstFrom(list: seq<Device>, name: string, i: nat): (k: Option<nat>)
    requires i <= |list|
    ensures k == None ==> forall j :: i <= j < |list| ==> list[j].logical != name
    ensures k.Some? ==> i <= k.value < |list| && list[k.value].logical == name && forall j :: i <= j < k.value ==>
            list[j].logical != name
    decreases |list| - i
  {
    if i == |list| then None else if list[i].logical == name then Some(i) else FirstFrom(list, name, i + 1)
  }

  // The first device of a name.
  function FirstNamed(list: seq<Device>, name: string): (k: Option<nat>)
    ensures k == None <==> name !in Names(list)
    ensures k.Some? ==> k.value < |list| && list[k.value].logical == name && forall j :: 0 <= j < k.value ==>
            list[j].logical != name
  {
    FirstFrom(list, name, 0)
  }

  // The first suffixed name that is free.
  predicate FirstFree(list: seq<Device>, name: string, n: nat) {
    n >= 1 && Suffixed(name, n) !in Names(list) && forall k :: 1 <= k < n ==> Suffixed(name, k) in Names(list)
  }

  // What the list becomes: a device of the same name that is not matched is replaced; else
  // the device is added, under a new name if there is one with its name.
  ghost predicate Added(before: seq<Device>, dev: Device, after: seq<Device>) {
    match FirstNamed(before, dev.logical)
    case None => after == before + [dev]
    case Some(k) =>
      if before[k].physical == "" then after == before[k := dev]
      else
        exists n: nat ::
          && n <= |before| && FirstFree(before, dev.logical, n)
          && after == before + [dev.(logical := Suffixed(dev.logical, n))]
  }

  lemma IsFree(list: seq<Device>, name: string, n: nat)
    requires FirstFree(list, name, n)
    ensures Suffixed(name, n) !in Names(list)
  {
    hide Names, Suffixed;
  }

  // Names stay unique, and every name that was in the list still is.
  lemma AddedDistinct(before: seq<Device>, dev: Device, after: seq<Device>)
    requires Distinct(before) && Added(before, dev, after)
    ensures Distinct(after) && Names(before) <= Names(after)
  {
    var k := FirstNamed(before, dev.logical);
    if k == None {
      NewName(before, dev);
    } else if before[k.value].physical != "" {
      var n: nat :| FirstFree(before, dev.logical, n) && after == before + [dev.(logical := Suffixed(dev.logical, n))];
      IsFree(before, dev.logical, n);
      NewName(before, dev.(logical := Suffixed(dev.logical, n)));
    } else {
      forall j | 0 <= j < |before| ensures after[j].logical == before[j].logical {
      }
      forall name | name in Names(before) ensures name in Names(after) {
        var j :| 0 <= j < |before| && before[j].logical == name;
        assert after[j].logical == name;
      }
    }
  }

  // A device that is matched is never lost, and the new one is in the list: under its own name
  // unless a matched device has it, and else with a suffix.
  lemma MatchedKept(before: seq<Device>, dev: Device, after: seq<Device>)
    requires Distinct(before) && Added(before, dev, after)
    ensures forall d :: d in before && d.physical != "" ==> d in after
    ensures (forall d :: d in before && d.logical == dev.logical ==> d.physical == "") ==> dev in after
    ensures (exists d :: d in before && d.logical == dev.logical && d.physical != "") ==>
              exists n: nat :: n >= 1 && dev.(logical := dev.logical + "-" + Decimal(n)) in after
    ensures dev.logical in Names(before) || after == before + [dev]
  {
    hide Decimal;
    var k := FirstNamed(before, dev.logical);
    forall i | 0 <= i < |before| && before[i].physical != "" ensures before[i] in after {
      assert i < |after| && after[i] == before[i];
    }
    if k.Some? {
      assert before[k.value] in before;
      forall d | d in before && d.logical == dev.logical ensures d == before[k.value] {
        var j :| 0 <= j < |before| && before[j] == d;
      }
      if before[k.value].physical == "" {
        assert after[k.value] == dev;
      } else {
        var n: nat :| n <= |before| && FirstFree(before, dev.logical, n)
          && after == before + [dev.(logical := Suffixed(dev.logical, n))];
        assert after[|before|] == dev.(logical := dev.logical + "-" + Decimal(n));
      }
    } else {
      assert after[|before|] == dev;
      assert forall j :: 0 <= j < |before| ==> before[j].logical in Names(before);
    }
  }

  lemma NewName(before: seq<Device>, dev: Device)
    requires Distinct(before) && dev.logical !in Names(before)
    ensures Distinct(before + [dev]) && Names(before) <= Names(before + [dev])
  {
    var after := before + [dev];
    assert forall j :: 0 <= j < |before| ==> after[j] == before[j] && before[j].logical in Names(before);
    forall name | name in Names(before) ensures name in Names(after) {
      var j :| 0 <= j < |before| && before[j].logical == name;
      assert after[j].logical == name;
    }
  }

  class GOMidiDeviceConfigList {
    var list: seq<Device>

    constructor ()
      ensures list == []
    {
      list := [];
    }

    method FindByLogicalName(name: string) returns (k: Option<nat>)
      ensures k == FirstNamed(list, name)
    {
      k := None;
      for i := 0 to |list|
        invariant FirstNamed(list, name) == FirstFrom(list, name, i)
      {
        if list[i].logical == name {
          return Some(i);
        }
      }
    }

    method Append(devConf: Device)
      requires Distinct(list)
      modifies this
      ensures Distinct(list) && Added(old(list), devConf, list)
    {
      var found := FindByLogicalName(devConf.logical);
      if found.Some? && list[found.value].physical == "" {
        list := list[found.value := devConf];
      } else {
        var added := devConf;
        if found.Some? {
          var n := FreeSuffix(devConf.logical);
          added := devConf.(logical := Suffixed(devConf.logical, n));
        }
        list := list + [added];
      }
      AddedDistinct(old(list), devConf, list);
    }

    // The loop that constructs a unique name.
    method FreeSuffix(name: string) returns (n: nat)
      requires name in Names(list)
      ensures n <= |list| && FirstFree(list, name, n)
    {
      n := 1;
      var taken := FindByLogicalName(Suffixed(name, n));
      while taken.Some?
        invariant n >= 1 && taken == FirstNamed(list, Suffixed(name, n))
        invariant forall k :: 1 <= k < n ==> Suffixed(name, k) in Names(list)
        decreases |list| - n
      {
        assert Suffixed(name, n) in Names(list);
        Pigeonhole(list, name, n);
        n := n + 1;
        taken := FindByLogicalName(Suffixed(name, n));
      }
      Pigeonhole(list, name, n - 1);
    }
  }
}
