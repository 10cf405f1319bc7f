// What the reader makes of the lines of a settings file, also of those that the writer never
// writes: comments, spaces, lines that are no entries.
module IniLaws {
  import opened IniFile
  import opened Options

  // Space, tab, line feed, vertical tab, form feed and carriage return.
  predicate Blank(s: string) {
    forall k :: 0 <= k < |s| ==> s[k] as int in {9, 10, 11, 12, 13, 32}
  }

  // No blank at the end.
  predicate Tight(s: string) {
    s == "" || !Blank(s[|s| - 1..])
  }

  lemma FirstIsThere(text: string, rest: string, c: char)
    requires c !in text
    ensures Find(text + [c] + rest, c) == |text|
  {
    FindIs(text + [c] + rest, c, |text|);
  }

  lemma {:induction false} NotThere(text: string, c: char)
    requires c !in text
    ensures Find(text, c) == |text|
  {
    assert text[..|text|] == text;
    FindIs(text, c, |text|);
  }

  lemma {:induction false} Trimmed(s: string, blanks: string)
    requires Tight(s) && Blank(blanks)
    ensures TrimRight(s + blanks) == s
  {
    if blanks == "" {
      assert s + blanks == s;
    } else {
      var most := blanks[..|blanks| - 1];
      assert (s + blanks)[..|s + blanks| - 1] == s + most;
      Trimmed(s, most);
    }
  }

  // A comment starts at the first semicolon; it goes together with the blanks before it.  Of a
  // line without a semicolon nothing is cut.
  lemma CommentsCut(text: string, blanks: string, comment: string)
    requires ';' !in text && Tight(text) && Blank(blanks)
    ensures CutComment(text + blanks + ";" + comment) == text
    ensures CutComment(text + blanks) == text + blanks
  {
    FirstIsThere(text + blanks, comment, ';');
    NotThere(text + blanks, ';');
    assert (text + blanks + ";" + comment)[..|text + blanks|] == text + blanks;
    Trimmed(text, blanks);
  }

  lemma NoBlanks()
    ensures Blank("")
  {
  }

  // So a line with a comment is read as the line without it.
  lemma CommentsIgnored(r: Reading, text: string, blanks: string, comment: string)
    requires Whole(r) && ';' !in text && Tight(text) && Blank(blanks)
    ensures ReadLine(r, text + blanks + ";" + comment) == ReadLine(r, text)
  {
    hide CutComment, TrimRight, Find, Blank;
    CommentsCut(text, blanks, comment);
    assert Blank("") by { NoBlanks(); }
    CommentsCut(text, "", "");
    assert text + "" == text;
  }

  // A group: further entries are stored in it, those that it has already stay.  Blanks at the
  // end of the line are ignored; a name may hold any character but a semicolon.
  lemma GroupLines(r: Reading, name: string, blanks: string)
    requires Whole(r) && ';' !in name && Blank(blanks)
    ensures var next := ReadLine(r, "[" + name + "]" + blanks);
            && next.group == Some(name)
            && name in next.entries && (name !in r.entries ==> next.entries[name] == map[])
            && forall g :: g in r.entries ==> g in next.entries && next.entries[g] == r.entries[g]
  {
    hide TrimRight, Blank;
    var head := "[" + name + "]";
    var line := head + blanks;
    NoSemicolon(name, blanks);
    NotThere(line, ';');
    Closed(head, blanks);
    assert head[1..|head| - 1] == name;
  }

  lemma NoSemicolon(name: string, blanks: string)
    requires ';' !in name && Blank(blanks)
    ensures ';' !in "[" + name + "]" + blanks
  {
  }

  lemma Closed(head: string, blanks: string)
    requires head != "" && head[|head| - 1] == ']' && Blank(blanks)
    ensures blanks != "" ==> (head + blanks)[|head + blanks| - 1] != ']' && TrimRight(head + blanks) == head
    ensures blanks == "" ==> head + blanks == head
  {
    hide TrimRight;
    assert head[|head| - 1..] == "]" && "]"[0] as int == 93;
    Trimmed(head, blanks);
    assert blanks != "" ==> (head + blanks)[|head + blanks| - 1] == blanks[|blanks| - 1];
  }

  // An entry: the name is what stands before the first equals sign, the value is the rest, with
  // all its blanks.  It replaces an earlier entry of the name, and nothing else.
  lemma EntryLines(r: Reading, name: string, value: string)
    requires Whole(r) && r.group.Some? && name != "" && name[0] != '[' && '=' !in name && ';' !in name && ';' !in value
    ensures var g, next := r.group.value, ReadLine(r, name + "=" + value);
            && next.group == r.group && next.entries.Keys == r.entries.Keys
            && name in next.entries[g] && next.entries[g][name] == value
            && (forall n :: n in r.entries[g] && n != name ==>
                  n in next.entries[g] && next.entries[g][n] == r.entries[g][n])
            && next.entries[g].Keys == r.entries[g].Keys + {name}
            && (forall o :: o in r.entries && o != g ==> next.entries[o] == r.entries[o])
  {
    var line := name + "=" + value;
    NotThere(line, ';');
    FirstIsThere(name, value, '=');
    assert line[..|name|] == name && line[|name| + 1..] == value;
  }

  // Lines that say nothing: empty ones, entries before the first group, lines without an equals
  // sign and lines with nothing before it.
  lemma OtherLines(r: Reading, line: string)
    requires Whole(r) && ';' !in line
    requires line == "" || r.group == None || '=' !in line || line[0] == '='
    requires |line| > 1 ==> line[0] != '['
    ensures ReadLine(r, line) == r
  {
    NotThere(line, ';');
    if '=' !in line {
      NotThere(line, '=');
    }
    assert line != "" && line[0] == '=' ==> Find(line, '=') == 0;
  }

  // Nor does a group that is not closed.
  lemma UnclosedGroups(r: Reading, text: string, blanks: string)
    requires Whole(r) && ';' !in text && Blank(blanks) && Tight(text)
    requires text != "" && text[0] == '[' && text[|text| - 1] != ']' && |text + blanks| > 1
    ensures ReadLine(r, text + blanks) == r
  {
    hide TrimRight;
    var line := text + blanks;
    NotThere(line, ';');
    Trimmed(text, blanks);
    assert line[0] == '[';
    assert blanks != "" ==> line[|line| - 1] == blanks[|blanks| - 1];
  }

  // The last line of a text may have no end.
  lemma LastLine(r: Reading, line: string)
    requires Whole(r) && line != "" && '\n' !in line
    ensures ReadText(r, line) == ReadLine(r, if line[|line| - 1] == '\r' then line[..|line| - 1] else line)
  {
    hide ReadLine;
    NotThere(line, '\n');
    assert line[..|line|] == line;
  }

  // ---------- the order of the printer ----------

  // Names are compared character by character, and a beginning comes before what goes on.
  lemma {:induction false} LessExactly(start: string, a: string, b: string)
    ensures b != "" ==> Less(start, start + b)
    ensures a != "" && b != "" && a[0] < b[0] ==> Less(start + a, start + b) && !Less(start + b, start + a)
    decreases start
  {
    if start == "" {
      assert start + a == a && start + b == b;
    } else {
      LessExactly(start[1..], a, b);
      assert (start + a)[1..] == start[1..] + a && (start + b)[1..] == start[1..] + b;
    }
  }

  // Groups and entries are printed in ascending order, each once.
  lemma {:induction false} Ascending(keys: set<string>, i: nat, j: nat)
    requires i < j < |Sorted(keys)|
    ensures Less(Sorted(keys)[i], Sorted(keys)[j])
    decreases |keys|
  {
    hide Least, Less;
    var rest := keys - {Least(keys)};
    if i > 0 {
      Ascending(rest, i - 1, j - 1);
    } else {
      assert Sorted(keys)[j] == Sorted(rest)[j - 1] && Sorted(rest)[j - 1] in Sorted(rest);
      assert Sorted(keys)[j] in rest;
    }
  }
}
