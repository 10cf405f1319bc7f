// The text format of organ settings: the writer's printer and the reader's line parser.
module IniFile {

  import opened Options

  type Entries = map<string, map<string, string>>

  // ---------- the order of a std::map ----------

  predicate Less(a: string, b: string) {
    b != [] && (a == [] || a[0] < b[0] || (a[0] == b[0] && Less(a[1..], b[1..])))
  }

  lemma {:induction false} LessTotal(a: string, b: string)
    ensures a == b || Less(a, b) || Less(b, a)
    ensures !(Less(a, b) && Less(b, a)) && (a == b ==> !Less(a, b))
  {
    if a != [] && b != [] {
      LessTotal(a[1..], b[1..]);
      assert a[0] == b[0] && a[1..] == b[1..] ==> a == [a[0]] + a[1..] == b;
    }
  }

  lemma {:induction false} LessTransitive(a: string, b: string, c: string)
    requires Less(a, b) && Less(b, c)
    ensures Less(a, c)
  {
    if a != [] && a[0] == b[0] == c[0] {
      LessTransitive(a[1..], b[1..], c[1..]);
    }
  }

  predicate IsLeast(k: string, keys: set<string>) {
    k in keys && forall other :: other in keys ==> other == k || Less(k, other)
  }

  ghost function Least(keys: set<string>): (k: string)
    requires keys != {}
    ensures IsLeast(k, keys)
    decreases |keys|
  {
    var x :| x in keys;
    if keys == {x} then x
    else
      var y := Least(keys - {x});
      LessTotal(x, y);
      assert forall other :: other in keys ==> other == x || other in keys - {x};
      assert Less(x, y) ==> forall other :: other in keys - {x} && Less(y, other) ==> Less(x, other) by {
        forall other | Less(x, y) && other in keys - {x} && Less(y, other) ensures Less(x, other) {
          LessTransitive(x, y, other);
        }
      }
      if Less(x, y) then x else y
  }

  lemma LeastIsUnique(j: string, k: string, keys: set<string>)
    requires IsLeast(j, keys) && IsLeast(k, keys)
    ensures j == k
  {
    LessTotal(j, k);
  }

  // The keys in the order of iteration.
  ghost function Sorted(keys: set<string>): (s: seq<string>)
    ensures forall k :: k in keys <==> k in s
    decreases |keys|
  {
    if keys == {} then [] else [Least(keys)] + Sorted(keys - {Least(keys)})
  }

  // ---------- the printer ----------

  function EntryText(name: string, value: string): string {
    name + "=" + value + "\n"
  }

  function EntryTexts(g: map<string, string>, names: seq<string>): string
    requires forall n :: n in names ==> n in g
  {
    if names == [] then "" else EntryText(names[0], g[names[0]]) + EntryTexts(g, names[1..])
  }

  ghost function GroupText(group: string, g: map<string, string>): string {
    "[" + group + "]\n" + EntryTexts(g, Sorted(g.Keys))
  }

  ghost function GroupTexts(m: Entries, groups: seq<string>): string
    requires forall g :: g in groups ==> g in m
  {
    if groups == [] then "" else GroupText(groups[0], m[groups[0]]) + GroupTexts(m, groups[1..])
  }

  ghost function Text(m: Entries): string {
    GroupTexts(m, Sorted(m.Keys))
  }

  class GOConfigFileWriter {
    var entries: Entries

    constructor ()
      ensures entries == map[]
    {
      entries := map[];
    }

    // The source asserts that the name is new in its group.
    method AddEntry(group: string, name: string, value: string)
      requires group in entries ==> name !in entries[group]
      modifies this
      ensures entries == old(entries)[group := (if group in old(entries) then old(entries)[group]
              else map[])[name := value]]
    {
      if group !in entries {
        entries := entries[group := map[]];
      }
      entries := entries[group := entries[group][name := value]];
    }

    method GetFileContent() returns (content: string)
      ensures content == Text(entries)
    {
      hide Sorted, Least, GroupText;
      content := "";
      var rest := entries.Keys;
      while rest != {}
        invariant rest <= entries.Keys
        invariant content + GroupTexts(entries, Sorted(rest)) == Text(entries)
        decreases |rest|
      {
        var group := TakeLeast(rest);
        var groupContent := GetGroupContent(group, entries[group]);
        Concatenated(content, groupContent, GroupTexts(entries, Sorted(rest - {group})));
        content := content + groupContent;
        rest := rest - {group};
      }
      assert Sorted({}) == [] by { NothingSorted(); }
    }
  }

  // The inner loop: one group.
  method GetGroupContent(group: string, g: map<string, string>) returns (content: string)
    ensures content == GroupText(group, g)
  {
    hide Sorted, Least, EntryText;
    content := "[" + group + "]\n";
    var rest := g.Keys;
    while rest != {}
      invariant rest <= g.Keys
      invariant content + EntryTexts(g, Sorted(rest)) == GroupText(group, g)
      decreases |rest|
    {
      var name := TakeLeast(rest);
      Concatenated(content, EntryText(name, g[name]), EntryTexts(g, Sorted(rest - {name})));
      content := content + EntryText(name, g[name]);
      rest := rest - {name};
    }
    assert Sorted({}) == [] by { NothingSorted(); }
  }

  lemma NothingSorted()
    ensures Sorted({}) == []
  {
  }

  lemma Concatenated(a: string, b: string, c: string)
    ensures a + (b + c) == (a + b) + c
  {
  }

  method TakeLeast(keys: set<string>) returns (k: string)
    requires keys != {}
    ensures k == Least(keys) && k in keys
    ensures Sorted(keys) == [k] + Sorted(keys - {k})
  {
    ghost var least := Least(keys);
    k :| k in keys && forall other :: other in keys ==> other == k || Less(k, other);
    LeastIsUnique(k, Least(keys), keys);
  }

  // ---------- lines ----------

  // The first position of a character, or the length of the text.
  function Find(text: string, c: char): (p: nat)
    ensures p <= |text| && c !in text[..p] && (p < |text| ==> text[p] == c)
  {
    if text == "" || text[0] == c then 0
    else
      var p := 1 + Find(text[1..], c);
      assert text[..p] == [text[0]] + text[1..][..p - 1];
      p
  }

  function DropCr(line: string): string {
    if line != "" && line[|line| - 1] == '\r' then line[..|line| - 1] else line
  }

  predicate IsSpace(c: char) {
    c == ' ' || ('\t' <= c && c <= '\r')
  }

  function TrimRight(s: string): (t: string)
    ensures t <= s && (t != "" ==> !IsSpace(t[|t| - 1]))
    ensures forall k :: |t| <= k < |s| ==> IsSpace(s[k])
  {
    if s != "" && IsSpace(s[|s| - 1]) then TrimRight(s[..|s| - 1]) else s
  }

  function CutComment(line: string): string {
    var p := Find(line, ';');
    if p < |line| then TrimRight(line[..p]) else line
  }

  // What has been read, and the group in which entries are stored.
  datatype Reading = Reading(entries: Entries, group: Option<string>)

  predicate Whole(r: Reading) {
    r.group.Some? ==> r.group.value in r.entries
  }

  // One line without its end.
  function ReadLine(r: Reading, full: string): (next: Reading)
    requires Whole(r)
    ensures Whole(next)
  {
    var line := CutComment(full);
    if line == "" then r
    else if |line| > 1 && line[0] == '[' then
      var closed := if line[|line| - 1] != ']' then TrimRight(line) else line;
      if |closed| < 2 || closed[|closed| - 1] != ']' then r
      else
        var group := closed[1..|closed| - 1];
        Reading(if group in r.entries then r.entries else r.entries[group := map[]], Some(group))
    else if r.group == None then r
    else
      var p := Find(line, '=');
      if p == 0 || p == |line| then r
      else
        var g := r.group.value;
        Reading(r.entries[g := r.entries[g][line[..p] := line[p + 1..]]], r.group)
  }

  function ReadText(r: Reading, text: string): (next: Reading)
    requires Whole(r)
    ensures Whole(next)
    decreases |text|
  {
    if text == "" then r
    else
      var p := Find(text, '\n');
      ReadText(ReadLine(r, DropCr(text[..p])), if p < |text| then text[p + 1..] else "")
  }

  function Parsed(text: string): Entries {
    ReadText(Reading(map[], None), text).entries
  }

  class GOConfigFileReader {
    var entries: Entries

    method GetNextLine(buffer: string, pos: nat) returns (line: string, next: nat)
      requires pos < |buffer|
      ensures var p := pos + Find(buffer[pos..], '\n');
              p <= |buffer| && line == DropCr(buffer[pos..p]) && next == p + 1
    {
      var newpos := pos;
      while newpos < |buffer| && buffer[newpos] != '\n'
        invariant pos <= newpos <= |buffer| && '\n' !in buffer[pos..newpos]
      {
        assert buffer[pos..newpos + 1] == buffer[pos..newpos] + [buffer[newpos]];
        newpos := newpos + 1;
      }
      FindIs(buffer[pos..], '\n', newpos - pos);
      line := buffer[pos..newpos];
      next := newpos + 1;
      if |line| > 0 && line[|line| - 1] == '\r' {
        line := line[..|line| - 1];
      }
    }

    method Read(input: string)
      modifies this
      ensures entries == Parsed(input)
    {
      hide ReadLine, Find, DropCr, ReadText, From;
      entries := map[];
      var pos: nat := 0;
      var group: Option<string> := None;
      AtStart(input);
      while pos < |input|
        invariant Whole(Reading(entries, group))
        invariant ReadText(Reading(entries, group), From(input, pos)).entries == Parsed(input)
        decreases |input| - pos
      {
        OneLine(Reading(entries, group), input, pos);
        var line: string;
        line, pos := GetNextLine(input, pos);
        group := TakeLine(group, line);
      }
      AtEnd(Reading(entries, group), input, pos);
    }

    // The body of the loop, for one line.
    method TakeLine(current: Option<string>, full: string) returns (group: Option<string>)
      requires Whole(Reading(entries, current))
      modifies this
      ensures Reading(entries, group) == ReadLine(Reading(old(entries), current), full)
    {
      group := current;
      var line := full;
      var semicolon := Find(line, ';');
      if semicolon < |line| {
        line := TrimRight(line[..semicolon]);
      }
      if line == "" {
        return;
      }
      if |line| > 1 && line[0] == '[' {
        if line[|line| - 1] != ']' {
          line := TrimRight(line);
          if line[|line| - 1] != ']' {
            return;
          }
        }
        group := Some(line[1..|line| - 1]);
        if group.value !in entries {
          entries := entries[group.value := map[]];
        }
      } else {
        if group == None {
          return;
        }
        var datapos := Find(line, '=');
        if datapos == 0 || datapos == |line| {
          return;
        }
        entries := entries[group.value := entries[group.value][line[..datapos] := line[datapos + 1..]]];
      }
    }
  }

  // The text from a position on, which may be one after the end.
  function From(text: string, pos: nat): string {
    if pos < |text| then text[pos..] else ""
  }

  lemma AtStart(text: string)
    ensures From(text, 0) == text
  {
  }

  lemma AtEnd(r: Reading, text: string, pos: nat)
    requires Whole(r) && pos >= |text|
    ensures ReadText(r, From(text, pos)) == r
  {
  }

  lemma OneLine(r: Reading, text: string, pos: nat)
    requires Whole(r) && pos < |text|
    ensures var p := pos + Find(text[pos..], '\n');
            p <= |text| && ReadText(r, From(text, pos))
              == ReadText(ReadLine(r, DropCr(text[pos..p])), From(text, p + 1))
  {
    hide ReadLine, DropCr, Find;
    var rest := text[pos..];
    var p := Find(rest, '\n');
    assert rest[..p] == text[pos..pos + p];
    assert p < |rest| ==> rest[p + 1..] == text[pos + p + 1..];
    assert (if p < |rest| then rest[p + 1..] else "") == From(text, pos + p + 1);
  }

  lemma {:induction false} FindIs(text: string, c: char, p: nat)
    requires p <= |text| && c !in text[..p] && (p < |text| ==> text[p] == c)
    ensures Find(text, c) == p
  {
    if p > 0 {
      assert text[0] == text[..p][0];
      assert text[1..][..p - 1] == text[..p][1..];
      FindIs(text[1..], c, p - 1);
    }
  }

  // ---------- the round trip ----------

  predicate Plain(s: string) {
    '\n' !in s && ';' !in s
  }

  predicate GoodEntry(name: string, value: string) {
    Plain(name) && Plain(value) && name != "" && name[0] != '[' && '=' !in name
  }

  predicate GoodGroup(g: map<string, string>) {
    forall n :: n in g ==> GoodEntry(n, g[n])
  }

  // What the format can hold.
  predicate Storable(m: Entries) {
    forall g :: g in m ==> Plain(g) && GoodGroup(m[g])
  }

  // No value ends in a carriage return.
  predicate NoCr(m: Entries) {
    forall g, n :: g in m && n in m[g] ==> DropCr(m[g][n]) == m[g][n]
  }

  function DropCrs(g: map<string, string>): map<string, string> {
    map n | n in g :: DropCr(g[n])
  }

  function WithoutCrs(m: Entries): Entries {
    map g | g in m :: DropCrs(m[g])
  }

  lemma LineRead(r: Reading, full: string, rest: string)
    requires Whole(r) && '\n' !in full
    ensures ReadText(r, full + "\n" + rest) == ReadText(ReadLine(r, DropCr(full)), rest)
  {
    hide ReadLine, DropCr, Find;
    var text := full + "\n" + rest;
    assert text[..|full|] == full;
    FindIs(text, '\n', |full|);
    assert text[|full| + 1..] == rest;
  }

  // One entry of the current group stored.
  function Stored(r: Reading, name: string, value: string): (next: Reading)
    requires Whole(r) && r.group.Some?
    ensures Whole(next) && next.group == r.group
  {
    r.(entries := r.entries[r.group.value := r.entries[r.group.value][name := DropCr(value)]])
  }

  // The entries `keys` of `g` stored in the current group.
  function AllStored(r: Reading, g: map<string, string>, keys: set<string>): (next: Reading)
    requires Whole(r) && r.group.Some? && keys <= g.Keys
    ensures Whole(next)
  {
    r.(entries := r.entries[r.group.value := r.entries[r.group.value] + Stripped(g, keys)])
  }

  function Stripped(g: map<string, string>, keys: set<string>): map<string, string> {
    map n | n in keys && n in g :: DropCr(g[n])
  }

  lemma AllStoredStep(r: Reading, g: map<string, string>, keys: set<string>, n: string)
    requires Whole(r) && r.group.Some? && keys <= g.Keys && n in keys
    ensures AllStored(Stored(r, n, g[n]), g, keys - {n}) == AllStored(r, g, keys)
  {
    hide DropCr;
    var have := r.entries[r.group.value];
    assert have[n := DropCr(g[n])] + Stripped(g, keys - {n}) == have + Stripped(g, keys);
  }

  lemma NoneStored(r: Reading, g: map<string, string>)
    requires Whole(r) && r.group.Some?
    ensures AllStored(r, g, {}) == r
  {
    var have := r.entries[r.group.value];
    assert have + Stripped(g, {}) == have;
    assert r.entries[r.group.value := have] == r.entries;
  }

  lemma EntryLine(r: Reading, name: string, value: string)
    requires Whole(r) && r.group.Some? && GoodEntry(name, value)
    ensures ReadLine(r, DropCr(name + "=" + value)) == Stored(r, name, value)
  {
    hide Find, TrimRight;
    var line := name + "=" + DropCr(value);
    assert DropCr(name + "=" + value) == line;
    FindIs(line, ';', |line|);
    assert line[..|name|] == name && line[|name| + 1..] == DropCr(value);
    FindIs(line, '=', |name|);
  }

  lemma GroupLine(r: Reading, group: string)
    requires Whole(r) && Plain(group) && group !in r.entries
    ensures ReadLine(r, DropCr("[" + group + "]")) == Reading(r.entries[group := map[]], Some(group))
  {
    var line := "[" + group + "]";
    FindIs(line, ';', |line|);
    assert line[1..|line| - 1] == group;
  }

  lemma {:induction false} EntriesRead(r: Reading, g: map<string, string>, keys: set<string>, rest: string)
    requires Whole(r) && r.group.Some? && keys <= g.Keys && GoodGroup(g)
    ensures ReadText(r, EntryTexts(g, Sorted(keys)) + rest) == ReadText(AllStored(r, g, keys), rest)
    decreases |keys|
  {
    hide ReadLine, DropCr, ReadText, GoodEntry, AllStored, Stored, EntryText;
    if keys == {} {
      NoneStored(r, g);
      assert "" + rest == rest;
    } else {
      var n := Least(keys);
      var others := keys - {n};
      var more := EntryTexts(g, Sorted(others)) + rest;
      Concatenated(EntryText(n, g[n]), EntryTexts(g, Sorted(others)), rest);
      EntryIsOneLine(n, g[n]);
      LineRead(r, n + "=" + g[n], more);
      EntryLine(r, n, g[n]);
      EntriesRead(Stored(r, n, g[n]), g, others, rest);
      AllStoredStep(r, g, keys, n);
    }
  }

  lemma EntryIsOneLine(name: string, value: string)
    requires GoodEntry(name, value)
    ensures '\n' !in name + "=" + value && EntryText(name, value) == name + "=" + value + "\n"
  {
  }

  // The groups `keys` of `m` added to what has been read.
  function AllGroups(r: Reading, m: Entries, keys: set<string>): Entries
    requires keys <= m.Keys
  {
    r.entries + map g | g in keys :: DropCrs(m[g])
  }

  lemma OneGroupRead(r: Reading, group: string, g: map<string, string>, rest: string)
    requires Whole(r) && Plain(group) && group !in r.entries && GoodGroup(g)
    ensures ReadText(r, GroupText(group, g) + rest)
            == ReadText(Reading(r.entries[group := DropCrs(g)], Some(group)), rest)
  {
    hide ReadLine, DropCr, ReadText, GoodGroup, EntryTexts, Sorted;
    var body := EntryTexts(g, Sorted(g.Keys));
    assert GroupText(group, g) + rest == ("[" + group + "]") + "\n" + (body + rest);
    LineRead(r, "[" + group + "]", body + rest);
    GroupLine(r, group);
    var emptyGroup := Reading(r.entries[group := map[]], Some(group));
    EntriesRead(emptyGroup, g, g.Keys, rest);
    assert map[] + Stripped(g, g.Keys) == DropCrs(g);
    assert emptyGroup.entries[group := DropCrs(g)] == r.entries[group := DropCrs(g)];
  }

  lemma {:induction false} GroupsRead(r: Reading, m: Entries, keys: set<string>)
    requires Whole(r) && keys <= m.Keys && Storable(m) && r.entries.Keys !! keys
    ensures ReadText(r, GroupTexts(m, Sorted(keys))).entries == AllGroups(r, m, keys)
    decreases |keys|
  {
    hide ReadText, GoodGroup, GroupText, DropCrs, Plain, AllGroups;
    if keys == {} {
      NothingRead(r);
      NoGroups(r, m);
    } else {
      var group := Least(keys);
      var others := keys - {group};
      OneGroupRead(r, group, m[group], GroupTexts(m, Sorted(others)));
      var filled := Reading(r.entries[group := DropCrs(m[group])], Some(group));
      GroupsRead(filled, m, others);
      AllGroupsStep(r, m, keys, group);
    }
  }

  lemma NoGroups(r: Reading, m: Entries)
    ensures AllGroups(r, m, {}) == r.entries
  {
  }

  lemma AllGroupsStep(r: Reading, m: Entries, keys: set<string>, group: string)
    requires keys <= m.Keys && group in keys && group !in r.entries
    ensures AllGroups(Reading(r.entries[group := DropCrs(m[group])], Some(group)), m, keys - {group})
            == AllGroups(r, m, keys)
  {
    hide DropCrs;
  }

  lemma NothingRead(r: Reading)
    requires Whole(r)
    ensures ReadText(r, "") == r
  {
  }

  // Reading what was written gives the settings back, except that a carriage return at the
  // end of a value is lost.
  lemma WrittenThenRead(m: Entries)
    requires Storable(m)
    ensures Parsed(Text(m)) == WithoutCrs(m)
  {
    hide DropCrs, ReadText, GroupTexts, Storable;
    GroupsRead(Reading(map[], None), m, m.Keys);
    assert AllGroups(Reading(map[], None), m, m.Keys) == WithoutCrs(m);
  }

  lemma LineStorable(r: Reading, full: string)
    requires Whole(r) && Storable(r.entries) && '\n' !in full
    ensures Storable(ReadLine(r, full).entries)
  {
    var line := CutComment(full);
    assert Plain(line) by { CutPlain(full); }
    var next := ReadLine(r, full);
    forall g | g in next.entries ensures Plain(g) && GoodGroup(next.entries[g]) {
      if g !in r.entries {
        var closed := if line[|line| - 1] != ']' then TrimRight(line) else line;
        assert g == closed[1..|closed| - 1];
      }
    }
  }

  lemma CutPlain(full: string)
    requires '\n' !in full
    ensures Plain(CutComment(full))
  {
    var p := Find(full, ';');
    assert p == |full| ==> full[..p] == full;
    assert CutComment(full) <= full[..p];
  }

  lemma {:induction false} ReadStorable(r: Reading, text: string)
    requires Whole(r) && Storable(r.entries)
    ensures Storable(ReadText(r, text).entries)
    decreases |text|
  {
    hide Storable, ReadLine;
    if text != "" {
      var p := Find(text, '\n');
      LineStorable(r, DropCr(text[..p]));
      ReadStorable(ReadLine(r, DropCr(text[..p])), if p < |text| then text[p + 1..] else "");
    }
  }

  // Whatever a file holds, the settings read from it can be stored.
  lemma ParsedIsStorable(text: string)
    ensures Storable(Parsed(text))
  {
    ReadStorable(Reading(map[], None), text);
  }

  // The settings that survive being written and read are exactly these.
  lemma RoundTrip(m: Entries)
    ensures Parsed(Text(m)) == m <==> Storable(m) && NoCr(m)
  {
    hide Parsed, Text, Storable;
    ParsedIsStorable(Text(m));
    if Storable(m) {
      WrittenThenRead(m);
      CrsLost(m);
    }
  }

  lemma CrsLost(m: Entries)
    ensures WithoutCrs(m) == m <==> NoCr(m)
  {
    if NoCr(m) {
      forall g | g in m ensures DropCrs(m[g]) == m[g] {
      }
    } else {
      var g, n :| g in m && n in m[g] && DropCr(m[g][n]) != m[g][n];
      assert DropCrs(m[g])[n] != m[g][n];
    }
  }

  // Reading a file, writing the result and reading it again.
  lemma ReadWriteRead(text: string)
    ensures Parsed(Text(Parsed(text))) == WithoutCrs(Parsed(text))
  {
    ParsedIsStorable(text);
    WrittenThenRead(Parsed(text));
  }
}
