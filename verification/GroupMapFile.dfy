/** The group map as a text file: one tab-separated line per module, '#' comments, blank lines. */
module GroupMapFile {
  import opened Texts

  /** (module type, file ID) -> group. */
  type Key = (string, string)
  type GroupMap = map<Key, string>

  /** The line for one entry: ID, group, module type. */
  function Line(k: Key, group: string): string {
    k.1 + "\t" + group + "\t" + k.0
  }

  /** What follows '#' is a comment. */
  function BeforeHash(line: string): string {
    Split(line, '#')[0]
  }

  /** The entry on a line, if it has one. */
  function Entry(line: string): Option<(Key, string)> {
    var parts := Split(Strip(BeforeHash(line)), '\t');
    if Strip(BeforeHash(line)) == "" || |parts| != 3 then None else Some(((parts[2], parts[0]), parts[1]))
  }

  /** Later entries win. */
  function PutAll(m: GroupMap, entries: seq<Option<(Key, string)>>): GroupMap
    decreases |entries|
  {
    if entries == [] then m
    else
      var first := entries[0];
      PutAll(if first.None? then m else m[first.value.0 := first.value.1], entries[1..])
  }

  function Entries(lines: seq<string>): (entries: seq<Option<(Key, string)>>)
    ensures |entries| == |lines|
  {
    if lines == [] then [] else [Entry(lines[0])] + Entries(lines[1..])
  }

  /** The lines of a text read with universal line ends (a "\r\n" pair only adds a blank line here). */
  function Lines(text: string): (lines: seq<string>)
    ensures |lines| > 0
    ensures forall line :: line in lines ==> '\n' !in line && '\r' !in line
  {
    if text == "" then [""]
    else
      var rest := Lines(text[1..]);
      if text[0] == '\n' || text[0] == '\r' then [""] + rest else [[text[0]] + rest[0]] + rest[1..]
  }

  function Load(text: string): GroupMap {
    PutAll(map[], Entries(Lines(text)))
  }

  lemma EntriesAhead(lines: seq<string>, i: nat)
    requires i < |lines|
    ensures Entries(lines[i..]) != [] && Entries(lines[i..])[0] == Entry(lines[i])
    ensures Entries(lines[i..])[1..] == Entries(lines[i + 1..])
  {
    assert lines[i..][0] == lines[i] && lines[i..][1..] == lines[i + 1..];
  }

  method LoadGroupMap(text: string) returns (m: GroupMap)
    ensures m == Load(text)
  {
    var lines := Lines(text);
    m := map[];
    assert lines[0..] == lines;
    for i := 0 to |lines|
      invariant PutAll(m, Entries(lines[i..])) == Load(text)
    {
      EntriesAhead(lines, i);
      var line := Strip(BeforeHash(lines[i]));
      if line == "" {
        continue;
      }
      var parts := Split(line, '\t');
      if |parts| != 3 {
        continue;
      }
      m := m[(parts[2], parts[0]) := parts[1]];
    }
  }

  /** Entries in file order: by ID, then by module type. */
  predicate KeyLe(a: Key, b: Key) {
    if a.1 == b.1 then LexLe(a.0, b.0) else LexLe(a.1, b.1)
  }

  lemma KeyLeIsTotalOrder()
    ensures TotalOrder(KeyLe)
  {
    LexLeIsTotalOrder();
    forall a: Key, b: Key | KeyLe(a, b) && KeyLe(b, a) ensures a == b {
      if a.1 != b.1 {
        LexLeAntisymmetric(a.1, b.1);
      } else {
        LexLeAntisymmetric(a.0, b.0);
      }
    }
    forall a: Key, b: Key ensures KeyLe(a, b) || KeyLe(b, a) {
      LexLeTotal(a.0, b.0);
      LexLeTotal(a.1, b.1);
    }
    forall a: Key, b: Key, c: Key | KeyLe(a, b) && KeyLe(b, c) ensures KeyLe(a, c) {
      KeyLeTransitive(a, b, c);
    }
  }

  lemma KeyLeTransitive(a: Key, b: Key, c: Key)
    requires KeyLe(a, b) && KeyLe(b, c)
    ensures KeyLe(a, c)
  {
    if a.1 == b.1 == c.1 {
      LexLeTransitive(a.0, b.0, c.0);
    } else if a.1 != b.1 && b.1 != c.1 {
      LexLeTransitive(a.1, b.1, c.1);
      if a.1 == c.1 {
        LexLeAntisymmetric(a.1, b.1);
      }
    }
  }

  function EntryLines(m: GroupMap, keys: seq<Key>): (lines: seq<string>)
    requires forall k :: k in keys ==> k in m
    ensures |lines| == |keys| && forall i :: 0 <= i < |keys| ==> lines[i] == Line(keys[i], m[keys[i]])
  {
    if keys == [] then [] else [Line(keys[0], m[keys[0]])] + EntryLines(m, keys[1..])
  }

  function FileText(header: seq<string>, m: GroupMap, keys: seq<Key>): string
    requires forall k :: k in keys ==> k in m
  {
    Join(header + EntryLines(m, keys), "\n") + "\n"
  }

  /** `sorted(group_map.items(), ...)`: every key once, by ID, then by module type. */
  function SortedKeys(m: GroupMap): (keys: seq<Key>)
    ensures forall k :: k in keys <==> k in m
    ensures Ascending(keys, KeyLe)
  {
    KeyLeIsTotalOrder();
    var keys := Sorted(m.Keys, KeyLe);
    assert forall k :: k in keys <==> k in Elements(keys);
    keys
  }

  /** The file's text; where it is stored is not part of this model. */
  method WriteGroupMap(header: seq<string>, m: GroupMap) returns (text: string)
    ensures text == FileText(header, m, SortedKeys(m))
  {
    var items := SortedKeys(m);
    var lines := header;
    assert items[0..] == items;
    for i := 0 to |items|
      invariant lines + EntryLines(m, items[i..]) == header + EntryLines(m, items)
    {
      assert items[i..][0] == items[i] && items[i..][1..] == items[i + 1..];
      assert items[i] in items;
      ghost var line := Line(items[i], m[items[i]]);
      Associative(lines, [line], EntryLines(m, items[i + 1..]));
      lines := lines + [Line(items[i], m[items[i]])];
    }
    assert lines + [] == lines;
    text := Join(lines, "\n") + "\n";
  }

  // ----- Round trip -----

  ghost predicate OneCell(s: string) {
    '#' !in s && '\t' !in s && '\n' !in s && '\r' !in s
  }

  /** An entry its line can carry: no separator, comment sign or line break anywhere, the ID begins and
      the module type ends with something other than white space. */
  ghost predicate Storable(k: Key, group: string) {
    && OneCell(k.0) && OneCell(k.1) && OneCell(group)
    && k.1 != "" && !IsSpace(k.1[0])
    && k.0 != "" && !IsSpace(k.0[|k.0| - 1])
  }

  lemma SplitLine(k: Key, group: string)
    requires '\t' !in k.0 && '\t' !in k.1 && '\t' !in group
    ensures Split(Line(k, group), '\t') == [k.1, group, k.0]
  {
    assert Line(k, group) == k.1 + ['\t'] + (group + ['\t'] + k.0);
    SplitAfterPart(k.1, '\t', group + ['\t'] + k.0);
    SplitAfterPart(group, '\t', k.0);
    SplitAfterPart(k.0, '\t', "");
  }

  lemma NoHash(line: string)
    requires '#' !in line
    ensures BeforeHash(line) == line
  {
    SplitAfterPart(line, '#', "");
  }

  lemma StorableLoads(k: Key, group: string)
    requires Storable(k, group)
    ensures Entry(Line(k, group)) == Some((k, group))
    ensures '\n' !in Line(k, group) && '\r' !in Line(k, group)
  {
    var line := Line(k, group);
    NoHash(line);
    SplitLine(k, group);
    assert line[0] == k.1[0] && line[|line| - 1] == k.0[|k.0| - 1];
    assert Strip(line) == line;
  }

  /** The first and last parts begin and end as the whole does. */
  lemma {:induction false} SplitEnds(s: string, sep: char)
    requires s != ""
    ensures var parts := Split(s, sep);
            && (s[0] != sep ==> parts[0] != "" && parts[0][0] == s[0])
            && (s[|s| - 1] != sep ==> var last := parts[|parts| - 1]; last != "" && last[|last| - 1] == s[|s| - 1])
  {
    if |s| > 1 {
      SplitEnds(s[1..], sep);
      assert s[1..][|s[1..]| - 1] == s[|s| - 1];
    }
  }

  lemma PartIsCell(line: string, p: string)
    requires '\n' !in line && '\r' !in line && p in Split(Strip(BeforeHash(line)), '\t')
    ensures OneCell(p)
  {
    var s := Strip(BeforeHash(line));
    SplitPart(line, '#', BeforeHash(line));
    StripLeavesNoSpace(BeforeHash(line));
    SplitPart(s, '\t', p);
  }

  /** Whatever a line without line breaks loads is storable. */
  lemma LoadedIsStorable(line: string)
    requires '\n' !in line && '\r' !in line && Entry(line).Some?
    ensures Storable(Entry(line).value.0, Entry(line).value.1)
  {
    var parts := Split(Strip(BeforeHash(line)), '\t');
    StripLeavesNoSpace(BeforeHash(line));
    SplitEnds(Strip(BeforeHash(line)), '\t');
    PartIsCell(line, parts[0]);
    PartIsCell(line, parts[1]);
    PartIsCell(line, parts[2]);
  }

  /** A line ends at the first line feed or carriage return. */
  lemma {:induction false} LinesAfterBreak(line: string, c: char, rest: string)
    requires '\n' !in line && '\r' !in line && (c == '\n' || c == '\r')
    ensures Lines(line + [c] + rest) == [line] + Lines(rest) && Lines(line) == [line]
  {
    var s := line + [c] + rest;
    if line == "" {
      assert s[1..] == rest;
    } else {
      assert s[1..] == line[1..] + [c] + rest;
      LinesAfterBreak(line[1..], c, rest);
      assert [line[0]] + line[1..] == line;
    }
  }

  lemma LinesAfterLine(line: string, rest: string)
    requires '\n' !in line && '\r' !in line
    ensures Lines(line + "\n" + rest) == [line] + Lines(rest)
  {
    LinesAfterBreak(line, '\n', rest);
  }

  lemma {:induction false} LinesOfJoin(lines: seq<string>)
    requires lines != [] && forall line :: line in lines ==> '\n' !in line && '\r' !in line
    ensures Lines(Join(lines, "\n") + "\n") == lines + [""]
  {
    if |lines| == 1 {
      LinesAfterLine(lines[0], "");
      assert lines[0] + "\n" + "" == Join(lines, "\n") + "\n";
    } else {
      LinesOfJoin(lines[1..]);
      var rest := Join(lines[1..], "\n") + "\n";
      LinesAfterLine(lines[0], rest);
      assert Join(lines, "\n") + "\n" == lines[0] + "\n" + rest;
    }
  }

  /** A header line: blank or a comment. */
  ghost predicate HeaderLine(line: string) {
    '\n' !in line && '\r' !in line && (line == "" || line[0] == '#')
  }

  lemma HeaderHasNoEntry(line: string)
    requires HeaderLine(line)
    ensures Entry(line) == None
  {
    if line != "" {
      SplitAfterPart("", '#', line[1..]);
      assert line == "" + ['#'] + line[1..];
    }
  }

  lemma {:induction false} EntriesOfConcat(a: seq<string>, b: seq<string>)
    ensures Entries(a + b) == Entries(a) + Entries(b)
  {
    if a == [] {
      assert a + b == b;
    } else {
      assert (a + b)[1..] == a[1..] + b;
      EntriesOfConcat(a[1..], b);
    }
  }

  lemma {:induction false} PutAllOfConcat(m: GroupMap, a: seq<Option<(Key, string)>>, b: seq<Option<(Key, string)>>)
    ensures PutAll(m, a + b) == PutAll(PutAll(m, a), b)
    decreases |a|
  {
    if a == [] {
      assert a + b == b;
    } else {
      assert (a + b)[1..] == a[1..] + b;
      PutAllOfConcat(if a[0].None? then m else m[a[0].value.0 := a[0].value.1], a[1..], b);
    }
  }

  lemma {:induction false} HeaderHasNoEntries(lines: seq<string>)
    requires forall i :: 0 <= i < |lines| ==> HeaderLine(lines[i])
    ensures forall i :: 0 <= i < |lines| ==> Entries(lines)[i].None?
  {
    if lines != [] {
      HeaderHasNoEntries(lines[1..]);
      HeaderHasNoEntry(lines[0]);
    }
  }

  lemma {:induction false} PutNothing(m: GroupMap, entries: seq<Option<(Key, string)>>)
    requires forall i :: 0 <= i < |entries| ==> entries[i].None?
    ensures PutAll(m, entries) == m
    decreases |entries|
  {
    if entries != [] {
      PutNothing(m, entries[1..]);
    }
  }

  function Items(m: GroupMap, keys: seq<Key>): seq<Option<(Key, string)>>
    requires forall k :: k in keys ==> k in m
  {
    if keys == [] then [] else [Some((keys[0], m[keys[0]]))] + Items(m, keys[1..])
  }

  lemma {:induction false} EntryLinesLoad(m: GroupMap, keys: seq<Key>)
    requires forall k :: k in keys ==> k in m && Storable(k, m[k])
    ensures Entries(EntryLines(m, keys)) == Items(m, keys)
  {
    if keys != [] {
      assert keys[0] in keys;
      StorableLoads(keys[0], m[keys[0]]);
      EntryLinesLoad(m, keys[1..]);
      assert EntryLines(m, keys)[1..] == EntryLines(m, keys[1..]);
    }
  }

  lemma {:induction false} PutItems(l: GroupMap, m: GroupMap, keys: seq<Key>)
    requires forall k :: k in keys ==> k in m
    requires forall k :: k in l ==> k in m && l[k] == m[k]
    ensures var r := PutAll(l, Items(m, keys));
            (forall k :: k in r <==> k in l || k in keys) && (forall k :: k in r ==> r[k] == m[k])
    decreases |keys|
  {
    if keys != [] {
      assert keys[0] in keys;
      PutItems(l[keys[0] := m[keys[0]]], m, keys[1..]);
      assert forall k :: k in keys <==> k == keys[0] || k in keys[1..];
    }
  }

  lemma {:induction false} EverythingLoadedIsStorable(m: GroupMap, lines: seq<string>)
    requires forall line :: line in lines ==> '\n' !in line && '\r' !in line
    requires forall k :: k in m ==> Storable(k, m[k])
    ensures forall k :: k in PutAll(m, Entries(lines)) ==> Storable(k, PutAll(m, Entries(lines))[k])
    decreases |lines|
  {
    if lines != [] {
      var entry := Entry(lines[0]);
      if entry.Some? {
        LoadedIsStorable(lines[0]);
        EverythingLoadedIsStorable(m[entry.value.0 := entry.value.1], lines[1..]);
      } else {
        EverythingLoadedIsStorable(m, lines[1..]);
      }
    }
  }

  lemma EntryLinesAreLines(m: GroupMap, keys: seq<Key>)
    requires forall k :: k in keys ==> k in m && Storable(k, m[k])
    ensures forall line :: line in EntryLines(m, keys) ==> '\n' !in line && '\r' !in line
  {
    var entries := EntryLines(m, keys);
    forall line | line in entries ensures '\n' !in line && '\r' !in line {
      var i :| 0 <= i < |keys| && entries[i] == line;
      assert keys[i] in keys;
      StorableLoads(keys[i], m[keys[i]]);
    }
  }

  /** The text of some lines loads as those lines: the blank line behind the last line break, and the
      one an empty file starts with, hold no entry. */
  lemma FileLoadsItsLines(lines: seq<string>)
    requires forall line :: line in lines ==> '\n' !in line && '\r' !in line
    ensures Load(Join(lines, "\n") + "\n") == PutAll(map[], Entries(lines))
  {
    var blank := [""];
    HeaderHasNoEntry("");
    assert Entries(blank) == [None];
    if lines == [] {
      LinesAfterLine("", "");
      assert "" + "\n" + "" == Join(lines, "\n") + "\n";
      assert Lines("") == blank;
      EntriesOfConcat(blank, blank);
      PutNothing(map[], [None] + [None]);
    } else {
      LinesOfJoin(lines);
      EntriesOfConcat(lines, blank);
      PutAllOfConcat(map[], Entries(lines), [None]);
      PutNothing(PutAll(map[], Entries(lines)), [None]);
    }
  }

  lemma StorableFileLoads(header: seq<string>, m: GroupMap, keys: seq<Key>)
    requires forall line :: line in header ==> HeaderLine(line)
    requires (forall k :: k in keys <==> k in m) && forall k :: k in m ==> Storable(k, m[k])
    ensures Load(FileText(header, m, keys)) == m
  {
    var entries := EntryLines(m, keys);
    EntryLinesAreLines(m, keys);
    FileLoadsItsLines(header + entries);
    EntriesOfConcat(header, entries);
    PutAllOfConcat(map[], Entries(header), Entries(entries));
    HeaderHasNoEntries(header);
    PutNothing(map[], Entries(header));
    EntryLinesLoad(m, keys);
    PutItems(map[], m, keys);
    SameMap(PutAll(map[], Items(m, keys)), m);
  }

  lemma SameMap(a: GroupMap, b: GroupMap)
    requires (forall k :: k in a <==> k in b) && forall k :: k in a ==> a[k] == b[k]
    ensures a == b
  {
  }

  /** Loading what was written gives the map back exactly when every entry is storable, whatever the
      order of the entries and whatever the header says. */
  lemma RoundTripExactly(header: seq<string>, m: GroupMap, keys: seq<Key>)
    requires forall line :: line in header ==> HeaderLine(line)
    requires forall k :: k in keys <==> k in m
    ensures Load(FileText(header, m, keys)) == m <==> forall k :: k in m ==> Storable(k, m[k])
  {
    if forall k :: k in m ==> Storable(k, m[k]) {
      StorableFileLoads(header, m, keys);
    }
    EverythingLoadedIsStorable(map[], Lines(FileText(header, m, keys)));
  }

  // ----- What is loaded and written -----

  /** Before its first '#', and trimmed, the line is ID, group and module type with a tab between them. */
  ghost predicate Carries(line: string, k: Key, group: string) {
    && '\t' !in k.1 && '\t' !in group && '\t' !in k.0
    && exists n :: 0 <= n <= |line| && '#' !in line[..n] && (n == |line| || line[n] == '#') &&
                   Strip(line[..n]) == k.1 + "\t" + group + "\t" + k.0
  }

  lemma {:induction false} CutAtHash(line: string, n: nat)
    requires n <= |line| && '#' !in line[..n] && (n == |line| || line[n] == '#')
    ensures BeforeHash(line) == line[..n]
  {
    SplitAfterPart(line[..n], '#', if n == |line| then "" else line[n + 1..]);
    assert line == if n == |line| then line[..n] else line[..n] + ['#'] + line[n + 1..];
  }

  lemma {:induction false} FirstHash(line: string) returns (n: nat)
    ensures n <= |line| && '#' !in line[..n] && (n == |line| || line[n] == '#')
  {
    n := 0;
    while n < |line| && line[n] != '#'
      invariant n <= |line| && '#' !in line[..n]
    {
      n := n + 1;
    }
  }

  /** A line has an entry exactly when it carries one, and then that one. */
  lemma EntryExactly(line: string, k: Key, group: string)
    ensures Entry(line) == Some((k, group)) <==> Carries(line, k, group)
  {
    if Entry(line) == Some((k, group)) {
      var n := FirstHash(line);
      CutAtHash(line, n);
      var s := Strip(line[..n]);
      SplitExactly(s, '\t');
      var parts := Split(s, '\t');
      assert parts[0] in parts && parts[1] in parts && parts[2] in parts;
      JoinThree(parts);
    }
    if Carries(line, k, group) {
      var n :| 0 <= n <= |line| && '#' !in line[..n] && (n == |line| || line[n] == '#') &&
               Strip(line[..n]) == k.1 + "\t" + group + "\t" + k.0;
      CutAtHash(line, n);
      SplitLine(k, group);
    }
  }

  lemma JoinThree(parts: seq<string>)
    requires |parts| == 3
    ensures Join(parts, "\t") == parts[0] + "\t" + parts[1] + "\t" + parts[2]
  {
    var tail := parts[1..];
    assert tail[0] == parts[1] && tail[1..] == [parts[2]];
    assert Join(tail, "\t") == parts[1] + ("\t" + parts[2]);
    assert parts[0] + ("\t" + (parts[1] + ("\t" + parts[2]))) == parts[0] + "\t" + parts[1] + "\t" + parts[2];
  }

  /** Entry `i` is the last one for `k`. */
  ghost predicate LastFor(entries: seq<Option<(Key, string)>>, i: int, k: Key) {
    && 0 <= i < |entries| && entries[i].Some? && entries[i].value.0 == k
    && forall j :: i < j < |entries| && entries[j].Some? ==> entries[j].value.0 != k
  }

  lemma {:induction false} LastWins(m: GroupMap, entries: seq<Option<(Key, string)>>, k: Key)
    ensures var r := PutAll(m, entries);
            && (k in r <==> k in m || exists i :: LastFor(entries, i, k))
            && (forall i :: LastFor(entries, i, k) ==> r[k] == entries[i].value.1)
            && ((forall i :: !LastFor(entries, i, k)) && k in m ==> r[k] == m[k])
    decreases |entries|
  {
    if entries != [] {
      var first, rest := entries[0], entries[1..];
      var next := if first.None? then m else m[first.value.0 := first.value.1];
      LastWins(next, rest, k);
      forall i ensures i > 0 ==> (LastFor(entries, i, k) <==> LastFor(rest, i - 1, k)) {
        LastBehind(entries, i, k);
      }
      forall i ensures LastFor(rest, i, k) ==> LastFor(entries, i + 1, k) {
        LastBehind(entries, i + 1, k);
      }
      if first.Some? && first.value.0 == k && forall i :: !LastFor(rest, i, k) {
        NoneFor(rest, k);
        assert forall j :: 0 < j < |entries| ==> entries[j] == rest[j - 1];
        assert LastFor(entries, 0, k);
      }
    }
  }

  lemma LastBehind(entries: seq<Option<(Key, string)>>, i: int, k: Key)
    requires entries != []
    ensures i > 0 ==> (LastFor(entries, i, k) <==> LastFor(entries[1..], i - 1, k))
  {
    if i > 0 {
      assert forall j :: 0 < j < |entries| ==> entries[j] == entries[1..][j - 1];
      assert forall j :: 0 <= j < |entries[1..]| ==> entries[1..][j] == entries[j + 1];
    }
  }

  /** Where some entry is for `k`, one is the last. */
  lemma {:induction false} NoneFor(entries: seq<Option<(Key, string)>>, k: Key)
    requires forall i :: !LastFor(entries, i, k)
    ensures forall j :: 0 <= j < |entries| && entries[j].Some? ==> entries[j].value.0 != k
  {
    var n := |entries|;
    while n > 0
      invariant 0 <= n <= |entries|
      invariant forall j :: n <= j < |entries| && entries[j].Some? ==> entries[j].value.0 != k
    {
      n := n - 1;
      assert !LastFor(entries, n, k);
    }
  }

  /** Line `i` carries the entry for `k`, and no later line carries one for it. */
  ghost predicate CarriesLast(lines: seq<string>, i: int, k: Key, group: string) {
    0 <= i < |lines| && Carries(lines[i], k, group) && forall j, g :: i < j < |lines| ==> !Carries(lines[j], k, g)
  }

  lemma CarriesLastExactly(lines: seq<string>, i: int, k: Key, group: string)
    ensures CarriesLast(lines, i, k, group) <==>
            LastFor(Entries(lines), i, k) && Entries(lines)[i].value.1 == group
  {
    var entries := Entries(lines);
    forall j, g | 0 <= j < |lines| ensures entries[j] == Some((k, g)) <==> Carries(lines[j], k, g) {
      EntryAt(lines, j);
      EntryExactly(lines[j], k, g);
    }
    if CarriesLast(lines, i, k, group) {
      assert entries[i] == Some((k, group));
      forall j | i < j < |entries| && entries[j].Some? ensures entries[j].value.0 != k {
        assert !Carries(lines[j], k, entries[j].value.1);
      }
    }
    if LastFor(entries, i, k) && entries[i].value.1 == group {
      assert entries[i] == Some((k, group));
      forall j, g | i < j < |lines| ensures !Carries(lines[j], k, g) {
        assert entries[j] != Some((k, g));
      }
    }
  }

  lemma LoadedIsCarried(text: string, k: Key) returns (i: int)
    requires k in Load(text)
    ensures CarriesLast(Lines(text), i, k, Load(text)[k])
  {
    var entries := Entries(Lines(text));
    LastWins(map[], entries, k);
    i :| LastFor(entries, i, k);
    CarriesLastExactly(Lines(text), i, k, Load(text)[k]);
  }

  lemma CarriedIsLoaded(text: string, k: Key, group: string, i: int)
    requires CarriesLast(Lines(text), i, k, group)
    ensures k in Load(text) && Load(text)[k] == group
  {
    var entries := Entries(Lines(text));
    LastWins(map[], entries, k);
    CarriesLastExactly(Lines(text), i, k, group);
    assert LastFor(entries, i, k);
  }

  /** Some line carries the entry, and no later one carries one for that key. */
  ghost predicate LastCarried(text: string, k: Key, group: string) {
    exists i :: CarriesLast(Lines(text), i, k, group)
  }

  /** What is loaded: the last line that carries an entry for a key decides, and a key without such a line is not
      there. */
  lemma LoadExactly(text: string, k: Key, group: string)
    ensures k in Load(text) && Load(text)[k] == group <==> LastCarried(text, k, group)
  {
    if k in Load(text) && Load(text)[k] == group {
      var i := LoadedIsCarried(text, k);
      assert LastCarried(text, k, group);
    }
    if LastCarried(text, k, group) {
      var i :| CarriesLast(Lines(text), i, k, group);
      CarriedIsLoaded(text, k, group, i);
    }
  }

  lemma {:induction false} EntryAt(lines: seq<string>, i: nat)
    requires i < |lines|
    ensures Entries(lines)[i] == Entry(lines[i])
  {
    if i > 0 {
      EntryAt(lines[1..], i - 1);
    }
  }

  /** What is written: the header lines and a line for every key, by ID and then by module type. */
  lemma WrittenExactly(header: seq<string>, m: GroupMap) returns (keys: seq<Key>, lines: seq<string>)
    ensures (forall k :: k in keys <==> k in m) && |lines| == |keys|
    ensures forall i, j :: 0 <= i < j < |keys| ==>
              if keys[i].1 == keys[j].1 then LexLe(keys[i].0, keys[j].0) && keys[i].0 != keys[j].0
              else LexLe(keys[i].1, keys[j].1)
    ensures forall i :: 0 <= i < |keys| ==>
              keys[i] in m && lines[i] == keys[i].1 + "\t" + m[keys[i]] + "\t" + keys[i].0
    ensures FileText(header, m, SortedKeys(m)) == Join(header + lines, "\n") + "\n"
  {
    keys := SortedKeys(m);
    lines := EntryLines(m, keys);
    forall i | 0 <= i < |keys| ensures keys[i] in m {
      assert keys[i] in keys;
    }
  }
}
