/** Removing `@dblink` references from SQL before it is parsed. */
module DbLinkStripper {
  import opened Texts

  datatype Mode = Normal | SingleQuoted | DoubleQuoted | LineComment | BlockComment

  predicate Blank(c: char) {
    c == ' ' || c == '\t'
  }

  predicate Gap(c: char) {
    c == ' ' || c == '\t' || c == '\r' || c == '\n'
  }

  /** The output with its trailing blanks popped. */
  function Trimmed(out: string): (r: string) {
    if out != "" && Blank(out[|out| - 1]) then Trimmed(out[..|out| - 1]) else out
  }

  function GapLength(s: string): (n: nat)
    ensures n <= |s|
  {
    if s != "" && Gap(s[0]) then 1 + GapLength(s[1..]) else 0
  }

  function NameLength(s: string): (n: nat)
    ensures n <= |s|
  {
    if s != "" && NameChar(s[0]) then 1 + NameLength(s[1..]) else 0
  }

  /** The link after an '@': what follows the gap, split into its name and the rest. */
  function LinkName(s: string): string {
    s[GapLength(s)..][..NameLength(s[GapLength(s)..])]
  }

  function AfterLink(s: string): (rest: string)
    ensures |rest| <= |s|
  {
    s[GapLength(s)..][NameLength(s[GapLength(s)..])..]
  }

  function Noted(name: string): seq<string> {
    if name == "" then [] else [name]
  }

  predicate TwoAhead(s: string, a: char, b: char) {
    |s| > 1 && s[0] == a && s[1] == b
  }

  /** The mode after copying the head of `s` (and, for the end of a block comment, how many characters). */
  function Copied(m: Mode, s: string): (n: nat)
    requires s != ""
    ensures 1 <= n <= |s|
  {
    if m.BlockComment? && TwoAhead(s, '*', '/') then 2 else 1
  }

  function Then(m: Mode, s: string): Mode
    requires s != ""
  {
    match m
    case Normal =>
      if TwoAhead(s, '-', '-') then LineComment
      else if TwoAhead(s, '/', '*') then BlockComment
      else if s[0] == '\'' then SingleQuoted
      else if s[0] == '"' then DoubleQuoted
      else Normal
    case SingleQuoted => if s[0] == '\'' then Normal else m
    case DoubleQuoted => if s[0] == '"' then Normal else m
    case LineComment => if s[0] == '\n' then Normal else m
    case BlockComment => if TwoAhead(s, '*', '/') then Normal else m
  }

  datatype Stripped = Stripped(text: string, links: seq<string>)

  /** The whole pass from mode `m`, given what has been put out and removed so far. */
  function Strip(m: Mode, out: string, links: seq<string>, s: string): Stripped
    decreases |s|
  {
    if s == "" then Stripped(out, links)
    else if m.Normal? && s[0] == '@' then
      Strip(Normal, Trimmed(out), links + Noted(LinkName(s[1..])), AfterLink(s[1..]))
    else
      Strip(Then(m, s), out + s[..Copied(m, s)], links, s[Copied(m, s)..])
  }

  method StripDbLinks(sql: string) returns (cleaned: string, removed: seq<string>)
    ensures Stripped(cleaned, removed) == Strip(Normal, "", [], sql)
  {
    cleaned, removed := "", [];
    var i, n := 0, |sql|;
    var state := Normal;
    while i < n
      invariant 0 <= i <= n
      invariant Strip(state, cleaned, removed, sql[i..]) == Strip(Normal, "", [], sql)
      decreases n - i
    {
      var ch := sql[i];
      if state.Normal? && ch == '@' {
        cleaned, removed, i := DropLink(sql, i, cleaned, removed);
        continue;
      }
      CopyStep(state, cleaned, removed, sql, i);
      if state.BlockComment? && ch == '*' && i + 1 < n && sql[i + 1] == '/' {
        cleaned := cleaned + [ch, '/'];
        i := i + 2;
        state := Normal;
        continue;
      }
      cleaned := cleaned + [ch];
      state := Turn(state, sql, i);
      i := i + 1;
    }
  }

  /** At an '@' in plain SQL: pop the blanks before it, skip the link behind it and note its name. */
  method DropLink(sql: string, at: nat, out: string, links: seq<string>)
    returns (cleaned: string, removed: seq<string>, end: nat)
    requires at < |sql| && sql[at] == '@'
    ensures at < end <= |sql|
    ensures Strip(Normal, cleaned, removed, sql[end..]) == Strip(Normal, out, links, sql[at..])
  {
    DropStep(out, links, sql, at);
    assert links + [] == links;
    cleaned := PopBlanks(out);
    var start;
    start, end := PassLink(sql, at + 1);
    removed := if end > start then links + [sql[start..end]] else links;
  }

  /** The mode after copying one character. */
  method Turn(state: Mode, sql: string, i: nat) returns (next: Mode)
    requires i < |sql| && !(state.BlockComment? && TwoAhead(sql[i..], '*', '/'))
    ensures next == Then(state, sql[i..])
  {
    var ch := sql[i];
    next := state;
    match state {
      case Normal =>
        if ch == '-' && i + 1 < |sql| && sql[i + 1] == '-' {
          next := LineComment;
        } else if ch == '/' && i + 1 < |sql| && sql[i + 1] == '*' {
          next := BlockComment;
        } else if ch == '\'' {
          next := SingleQuoted;
        } else if ch == '"' {
          next := DoubleQuoted;
        }
      case SingleQuoted =>
        if ch == '\'' {
          next := Normal;
        }
      case DoubleQuoted =>
        if ch == '"' {
          next := Normal;
        }
      case LineComment =>
        if ch == '\n' {
          next := Normal;
        }
      case BlockComment =>
    }
  }

  method PopBlanks(out: string) returns (popped: string)
    ensures popped == Trimmed(out)
  {
    popped := out;
    while popped != "" && Blank(popped[|popped| - 1])
      invariant Trimmed(popped) == Trimmed(out)
      decreases |popped|
    {
      popped := popped[..|popped| - 1];
    }
  }

  /** Past the gap at `from`, then past the link name. */
  method PassLink(sql: string, from: nat) returns (start: nat, end: nat)
    requires from <= |sql|
    ensures from <= start <= end <= |sql|
    ensures LinkName(sql[from..]) == sql[start..end] && AfterLink(sql[from..]) == sql[end..]
  {
    start := PassGap(sql, from);
    end := PassName(sql, start);
    Slices(sql, from, start, end);
  }

  lemma Slices(s: string, a: nat, b: nat, c: nat)
    requires a <= b <= c <= |s|
    ensures s[a..][b - a..] == s[b..]
    ensures s[b..][..c - b] == s[b..c] && s[b..][c - b..] == s[c..]
  {
  }

  method PassGap(sql: string, from: nat) returns (i: nat)
    requires from <= |sql|
    ensures from <= i <= |sql| && GapLength(sql[from..]) == i - from
  {
    i := from;
    while i < |sql| && Gap(sql[i])
      invariant from <= i <= |sql|
      invariant GapLength(sql[from..]) == i - from + GapLength(sql[i..])
    {
      assert sql[i..][1..] == sql[i + 1..];
      i := i + 1;
    }
  }

  method PassName(sql: string, from: nat) returns (i: nat)
    requires from <= |sql|
    ensures from <= i <= |sql| && NameLength(sql[from..]) == i - from
  {
    i := from;
    while i < |sql| && NameChar(sql[i])
      invariant from <= i <= |sql|
      invariant NameLength(sql[from..]) == i - from + NameLength(sql[i..])
    {
      assert sql[i..][1..] == sql[i + 1..];
      i := i + 1;
    }
  }

  lemma DropStep(out: string, links: seq<string>, s: string, i: nat)
    requires i < |s| && s[i] == '@'
    ensures Strip(Normal, out, links, s[i..]) ==
            Strip(Normal, Trimmed(out), links + Noted(LinkName(s[i + 1..])), AfterLink(s[i + 1..]))
  {
    assert s[i..][1..] == s[i + 1..];
  }

  lemma CopyStep(m: Mode, out: string, links: seq<string>, s: string, i: nat)
    requires i < |s| && !(m.Normal? && s[i] == '@')
    ensures s[i..][0] == s[i] && (i + 1 < |s| ==> s[i..][1] == s[i + 1])
    ensures m.BlockComment? && i + 1 < |s| && s[i] == '*' && s[i + 1] == '/' ==>
              Strip(m, out, links, s[i..]) == Strip(Normal, out + [s[i], '/'], links, s[i + 2..])
    ensures !(m.BlockComment? && i + 1 < |s| && s[i] == '*' && s[i + 1] == '/') ==>
              Strip(m, out, links, s[i..]) == Strip(Then(m, s[i..]), out + [s[i]], links, s[i + 1..])
  {
    var k := Copied(m, s[i..]);
    assert s[i..][k..] == s[i + k..];
    assert s[i..][..k] == if k == 1 then [s[i]] else [s[i], s[i + 1]];
  }

  // ----- Protected text -----

  /** A character together with its place: plain SQL, the first character of a string, quoted
      identifier or comment, or a later one. */
  datatype Place = Plain | Opens | Inside
  datatype Cell = Cell(ch: char, place: Place)

  function PlaceOf(m: Mode, s: string): Place
    requires s != ""
  {
    if !m.Normal? then Inside else if Then(m, s).Normal? then Plain else Opens
  }

  /** The head of `s` as copied from mode `m`. */
  function CopiedCells(m: Mode, s: string): (cells: seq<Cell>)
    requires s != ""
    ensures Chars(cells) == s[..Copied(m, s)]
  {
    var first := [Cell(s[0], PlaceOf(m, s))];
    if Copied(m, s) == 2 then first + [Cell(s[1], Inside)] else first
  }

  /** The source as the loop delimits it, nothing removed. */
  function Cells(m: Mode, s: string): seq<Cell>
    decreases |s|
  {
    if s == "" then [] else CopiedCells(m, s) + Cells(Then(m, s), s[Copied(m, s)..])
  }

  function Chars(cells: seq<Cell>): (s: string)
    ensures |s| == |cells| && forall i :: 0 <= i < |cells| ==> s[i] == cells[i].ch
  {
    if cells == [] then "" else [cells[0].ch] + Chars(cells[1..])
  }

  /** The protected segments, in order: everything but plain SQL. */
  function Protected(cells: seq<Cell>): seq<Cell> {
    if cells == [] then []
    else (if cells[0].place.Plain? then [] else [cells[0]]) + Protected(cells[1..])
  }

  function TrimmedCells(out: seq<Cell>): (r: seq<Cell>) {
    if out != [] && Blank(out[|out| - 1].ch) then TrimmedCells(out[..|out| - 1]) else out
  }

  /** The pass on cells: what it puts out remembers where it came from. */
  function StripCells(m: Mode, out: seq<Cell>, s: string): seq<Cell>
    decreases |s|
  {
    if s == "" then out
    else if m.Normal? && s[0] == '@' then StripCells(Normal, TrimmedCells(out), AfterLink(s[1..]))
    else StripCells(Then(m, s), out + CopiedCells(m, s), s[Copied(m, s)..])
  }

  lemma CharsOfConcat(a: seq<Cell>, b: seq<Cell>)
    ensures Chars(a + b) == Chars(a) + Chars(b)
  {
  }

  lemma {:induction false} CharsOfTrimmed(out: seq<Cell>)
    ensures Chars(TrimmedCells(out)) == Trimmed(Chars(out))
  {
    if out != [] && Blank(out[|out| - 1].ch) {
      var front := out[..|out| - 1];
      CharsOfTrimmed(front);
      assert Chars(front) == Chars(out)[..|out| - 1];
      assert Trimmed(Chars(out)) == Trimmed(Chars(front));
    }
  }

  /** The pass on cells is the pass. */
  lemma {:induction false} CellsFollowText(m: Mode, out: seq<Cell>, links: seq<string>, s: string)
    ensures Chars(StripCells(m, out, s)) == Strip(m, Chars(out), links, s).text
    decreases |s|
  {
    if s != "" {
      if m.Normal? && s[0] == '@' {
        CharsOfTrimmed(out);
        CellsFollowText(Normal, TrimmedCells(out), links + Noted(LinkName(s[1..])), AfterLink(s[1..]));
      } else {
        CharsOfConcat(out, CopiedCells(m, s));
        CellsFollowText(Then(m, s), out + CopiedCells(m, s), links, s[Copied(m, s)..]);
      }
    }
  }

  lemma {:induction false} ProtectedOfConcat(a: seq<Cell>, b: seq<Cell>)
    ensures Protected(a + b) == Protected(a) + Protected(b)
  {
    if a == [] {
      assert a + b == b;
    } else {
      assert (a + b)[1..] == a[1..] + b;
      ProtectedOfConcat(a[1..], b);
    }
  }

  /** The blanks at the end of `out`, if any, are plain SQL. */
  predicate Settled(out: seq<Cell>) {
    out != [] && Blank(out[|out| - 1].ch) ==> out[|out| - 1].place.Plain? && Settled(out[..|out| - 1])
  }

  /** Popping blanks never reaches into a protected segment. */
  lemma {:induction false} TrimmingKeepsProtected(out: seq<Cell>)
    requires Settled(out)
    ensures Protected(TrimmedCells(out)) == Protected(out) && Settled(TrimmedCells(out))
  {
    if out != [] && Blank(out[|out| - 1].ch) {
      var front, last := out[..|out| - 1], out[|out| - 1];
      assert out == front + [last];
      ProtectedOfConcat(front, [last]);
      TrimmingKeepsProtected(front);
    }
  }

  /** A link (with the gap before it) holds no quote and opens no comment. */
  lemma {:induction false} LinksAreNotProtected(s: string, k: nat)
    requires k <= |s| && forall i :: 0 <= i < k ==> Gap(s[i]) || NameChar(s[i]) || s[i] == '@'
    ensures Protected(Cells(Normal, s)) == Protected(Cells(Normal, s[k..]))
    decreases k
  {
    if k > 0 {
      assert Then(Normal, s) == Normal;
      assert s[1..][k - 1..] == s[k..];
      LinksAreNotProtected(s[1..], k - 1);
    } else {
      assert s[0..] == s;
    }
  }

  /** Every string, quoted identifier and comment of the source, as the loop delimits it, is in the
      output: verbatim, in order, and nothing else is protected there. */
  lemma {:induction false} ProtectedTextIsCopied(m: Mode, out: seq<Cell>, s: string)
    requires m.Normal? ==> Settled(out)
    ensures Protected(StripCells(m, out, s)) == Protected(out) + Protected(Cells(m, s))
    decreases |s|
  {
    if s != "" {
      if m.Normal? && s[0] == '@' {
        TrimmingKeepsProtected(out);
        ProtectedTextIsCopied(Normal, TrimmedCells(out), AfterLink(s[1..]));
        LinkIsPlain(s);
      } else {
        var head, tail := CopiedCells(m, s), Cells(Then(m, s), s[Copied(m, s)..]);
        SettledAfterCopy(m, out, s);
        ProtectedTextIsCopied(Then(m, s), out + head, s[Copied(m, s)..]);
        ProtectedOfConcat(out, head);
        ProtectedOfConcat(head, tail);
        Associative(Protected(out), Protected(head), Protected(tail));
      }
    }
  }

  lemma LinkIsPlain(s: string)
    requires s != "" && s[0] == '@'
    ensures Protected(Cells(Normal, s)) == Protected(Cells(Normal, AfterLink(s[1..])))
  {
    LinkSpan(s[1..]);
    var rest := AfterLink(s[1..]);
    var k := |s| - |rest|;
    assert s[k..] == s[1..][k - 1..] == rest;
    LinksAreNotProtected(s, k);
  }

  lemma SettledAfterCopy(m: Mode, out: seq<Cell>, s: string)
    requires s != "" && !(m.Normal? && s[0] == '@') && (m.Normal? ==> Settled(out))
    ensures Then(m, s).Normal? ==> Settled(out + CopiedCells(m, s))
  {
    var all := out + CopiedCells(m, s);
    if m.Normal? && Then(m, s).Normal? {
      assert all[..|all| - 1] == out;
    }
  }

  lemma LinkSpan(s: string)
    ensures var n := |s| - |AfterLink(s)|;
            s[n..] == AfterLink(s) && forall i :: 0 <= i < n ==> Gap(s[i]) || NameChar(s[i])
  {
    var g := GapLength(s);
    var k := NameLength(s[g..]);
    GapIsGap(s);
    NameIsName(s[g..]);
    assert s[g..][k..] == s[g + k..];
    forall i | g <= i < g + k ensures NameChar(s[i]) {
      assert s[i] == s[g..][i - g];
    }
  }

  lemma {:induction false} GapIsGap(s: string)
    ensures forall i :: 0 <= i < GapLength(s) ==> Gap(s[i])
  {
    if s != "" && Gap(s[0]) {
      GapIsGap(s[1..]);
      forall i | 0 <= i < GapLength(s) ensures Gap(s[i]) {
        if i > 0 {
          assert s[i] == s[1..][i - 1];
        }
      }
    }
  }

  lemma {:induction false} NameIsName(s: string)
    ensures forall i :: 0 <= i < NameLength(s) ==> NameChar(s[i])
  {
    if s != "" && NameChar(s[0]) {
      NameIsName(s[1..]);
      forall i | 0 <= i < NameLength(s) ensures NameChar(s[i]) {
        if i > 0 {
          assert s[i] == s[1..][i - 1];
        }
      }
    }
  }

  // ----- Unchanged text, and the second pass -----

  lemma {:induction false} WithoutPlainAtNothingChanges(m: Mode, out: string, links: seq<string>, s: string)
    requires Cell('@', Plain) !in Cells(m, s)
    ensures Strip(m, out, links, s) == Stripped(out + s, links)
    decreases |s|
  {
    if s == "" {
      assert out + s == out;
    } else {
      var k := Copied(m, s);
      HeadCell(m, s);
      assert s[..k] + s[k..] == s;
      Associative(out, s[..k], s[k..]);
      WithoutPlainAtNothingChanges(Then(m, s), out + s[..k], links, s[k..]);
    }
  }

  lemma HeadCell(m: Mode, s: string)
    requires s != ""
    ensures m.Normal? && s[0] == '@' <==> Cell('@', Plain) in CopiedCells(m, s)
    ensures Cell('@', Plain) in Cells(m, s) <==>
            Cell('@', Plain) in CopiedCells(m, s) || Cell('@', Plain) in Cells(Then(m, s), s[Copied(m, s)..])
  {
    if m.Normal? && s[0] == '@' {
      assert CopiedCells(m, s)[0] == Cell('@', Plain);
    }
  }

  lemma {:induction false} NeverLonger(m: Mode, out: string, links: seq<string>, s: string)
    ensures |Strip(m, out, links, s).text| <= |out| + |s|
    decreases |s|
  {
    if s != "" {
      if m.Normal? && s[0] == '@' {
        TrimmedIsShorter(out);
        NeverLonger(Normal, Trimmed(out), links + Noted(LinkName(s[1..])), AfterLink(s[1..]));
      } else {
        NeverLonger(Then(m, s), out + s[..Copied(m, s)], links, s[Copied(m, s)..]);
      }
    }
  }

  lemma {:induction false} TrimmedIsShorter(out: string)
    ensures |Trimmed(out)| <= |out|
  {
    if out != "" && Blank(out[|out| - 1]) {
      TrimmedIsShorter(out[..|out| - 1]);
    }
  }

  lemma {:induction false} APlainAtShortens(m: Mode, out: string, links: seq<string>, s: string)
    requires Cell('@', Plain) in Cells(m, s)
    ensures |Strip(m, out, links, s).text| < |out| + |s|
    decreases |s|
  {
    HeadCell(m, s);
    if m.Normal? && s[0] == '@' {
      TrimmedIsShorter(out);
      NeverLonger(Normal, Trimmed(out), links + Noted(LinkName(s[1..])), AfterLink(s[1..]));
    } else {
      APlainAtShortens(Then(m, s), out + s[..Copied(m, s)], links, s[Copied(m, s)..]);
    }
  }

  /** The pass leaves a text alone exactly when no '@' stands in plain SQL. */
  lemma UnchangedExactly(s: string)
    ensures Cell('@', Plain) !in Cells(Normal, s) <==> Strip(Normal, "", [], s) == Stripped(s, [])
  {
    if Cell('@', Plain) in Cells(Normal, s) {
      APlainAtShortens(Normal, "", [], s);
    } else {
      WithoutPlainAtNothingChanges(Normal, "", [], s);
      assert "" + s == s;
    }
  }

  /** Reading a text one character at a time: what has been read decides what the next one means. */
  datatype State = Open | AfterDash | AfterSlash | InSingle | InDouble | InLine | InBlock | AfterStar

  function Step(q: State, c: char): State {
    match q
    case InSingle => if c == '\'' then Open else q
    case InDouble => if c == '"' then Open else q
    case InLine => if c == '\n' then Open else q
    case InBlock => if c == '*' then AfterStar else q
    case AfterStar => if c == '/' then Open else if c == '*' then q else InBlock
    case _ =>
      if q.AfterDash? && c == '-' then InLine
      else if q.AfterSlash? && c == '*' then AfterStar
      else if c == '-' then AfterDash
      else if c == '/' then AfterSlash
      else if c == '\'' then InSingle
      else if c == '"' then InDouble
      else Open
  }

  function Read(t: string): State {
    if t == "" then Open else Step(Read(t[..|t| - 1]), t[|t| - 1])
  }

  predicate IsOpen(q: State) {
    q.Open? || q.AfterDash? || q.AfterSlash?
  }

  /** No '@' of `t` is read in plain SQL. */
  predicate Clear(t: string) {
    t == "" || (Clear(t[..|t| - 1]) && !(t[|t| - 1] == '@' && IsOpen(Read(t[..|t| - 1]))))
  }

  predicate Heads(s: string, c: char) {
    s != "" && s[0] == c
  }

  /** Mode `m`, which looks ahead into `s`, agrees with state `q`, which looks back. */
  predicate Synced(m: Mode, q: State, s: string) {
    match m
    case Normal => IsOpen(q) && !(q.AfterDash? && Heads(s, '-')) && !(q.AfterSlash? && Heads(s, '*'))
    case SingleQuoted => q.InSingle?
    case DoubleQuoted => q.InDouble?
    case LineComment => q.InLine? || (q.AfterDash? && Heads(s, '-'))
    case BlockComment => q.InBlock? || (q.AfterStar? && !Heads(s, '/')) || (q.AfterSlash? && Heads(s, '*'))
  }

  lemma ReadSnoc(t: string, c: char)
    ensures Read(t + [c]) == Step(Read(t), c)
    ensures Clear(t + [c]) <==> Clear(t) && !(c == '@' && IsOpen(Read(t)))
  {
    assert (t + [c])[..|t|] == t;
  }

  /** Copying keeps mode and state in step, and puts no readable '@' out. */
  lemma CopyKeepsSync(m: Mode, out: string, s: string)
    requires s != "" && Synced(m, Read(out), s)
    ensures Synced(Then(m, s), Read(out + s[..Copied(m, s)]), s[Copied(m, s)..])
    ensures !(m.Normal? && s[0] == '@') ==> (Clear(out + s[..Copied(m, s)]) <==> Clear(out))
    ensures m.Normal? && s[0] == '@' ==> !Clear(out + s[..Copied(m, s)])
  {
    ReadSnoc(out, s[0]);
    assert s[..1] == [s[0]];
    if Copied(m, s) == 2 {
      ReadSnoc(out + [s[0]], s[1]);
      assert out + s[..2] == out + [s[0]] + [s[1]];
    }
  }

  lemma {:induction false} TrimmingStaysOpen(out: string)
    requires IsOpen(Read(out)) && Clear(out)
    ensures IsOpen(Read(Trimmed(out))) && Clear(Trimmed(out))
  {
    if out != "" && Blank(out[|out| - 1]) {
      TrimmingStaysOpen(out[..|out| - 1]);
    }
  }

  /** How the output reads so far: as it stands, and with its trailing blanks popped. */
  datatype Reading = Reading(full: State, trimmed: State)

  const BEGINNING := Reading(Open, Open)

  function Put(r: Reading, c: char): Reading {
    Reading(Step(r.full, c), if Blank(c) then r.trimmed else Step(r.full, c))
  }

  /** After copying the first `k` characters of `s`. */
  function PutAll(r: Reading, s: string, k: nat): Reading
    requires k <= |s|
    decreases k
  {
    if k == 0 then r else PutAll(Put(r, s[0]), s[1..], k - 1)
  }

  /** After taking a link out, with the blanks before it. */
  function Popped(r: Reading): Reading {
    Reading(r.trimmed, r.trimmed)
  }

  /** Taking a link out joins no two characters into a comment opener. */
  predicate Apart(q: State, rest: string) {
    !(q.AfterDash? && Heads(rest, '-')) && !(q.AfterSlash? && Heads(rest, '*'))
  }

  /** No removed link has, after trimming, a '-' before and a '-' behind it, or a '/' before and a '*' behind. */
  predicate CleanJoins(m: Mode, r: Reading, s: string)
    decreases |s|
  {
    if s == "" then true
    else if m.Normal? && s[0] == '@' then
      Apart(r.trimmed, AfterLink(s[1..])) && CleanJoins(Normal, Popped(r), AfterLink(s[1..]))
    else CleanJoins(Then(m, s), PutAll(r, s, Copied(m, s)), s[Copied(m, s)..])
  }

  /** No '@' of a string, quoted identifier or comment is put out where the output before it reads as plain SQL. */
  predicate Covered(m: Mode, r: Reading, s: string)
    decreases |s|
  {
    if s == "" then true
    else if m.Normal? && s[0] == '@' then Covered(Normal, Popped(r), AfterLink(s[1..]))
    else
      !(s[0] == '@' && IsOpen(r.full)) && Covered(Then(m, s), PutAll(r, s, Copied(m, s)), s[Copied(m, s)..])
  }

  function ReadingOf(out: string): Reading {
    Reading(Read(out), Read(Trimmed(out)))
  }

  lemma {:induction false} TrimmedTwice(out: string)
    ensures Trimmed(Trimmed(out)) == Trimmed(out)
  {
    if out != "" && Blank(out[|out| - 1]) {
      TrimmedTwice(out[..|out| - 1]);
    }
  }

  lemma PoppedIsTrimmed(out: string)
    ensures ReadingOf(Trimmed(out)) == Popped(ReadingOf(out))
  {
    TrimmedTwice(out);
  }

  lemma ReadingSnoc(out: string, c: char)
    ensures ReadingOf(out + [c]) == Put(ReadingOf(out), c)
  {
    ReadSnoc(out, c);
    assert (out + [c])[..|out|] == out;
  }

  lemma {:induction false} ReadingAfterCopy(out: string, s: string, k: nat)
    requires k <= |s|
    ensures ReadingOf(out + s[..k]) == PutAll(ReadingOf(out), s, k)
    decreases k
  {
    if k == 0 {
      assert out + s[..0] == out;
    } else {
      ReadingSnoc(out, s[0]);
      ReadingAfterCopy(out + [s[0]], s[1..], k - 1);
      assert out + s[..k] == out + [s[0]] + s[1..][..k - 1];
    }
  }

  lemma {:induction false} OutputIsClear(m: Mode, out: string, links: seq<string>, s: string)
    requires Synced(m, Read(out), s) && Clear(out) && CleanJoins(m, ReadingOf(out), s)
    ensures Clear(Strip(m, out, links, s).text)
    decreases |s|
  {
    if s != "" {
      if m.Normal? && s[0] == '@' {
        TrimmingStaysOpen(out);
        PoppedIsTrimmed(out);
        OutputIsClear(Normal, Trimmed(out), links + Noted(LinkName(s[1..])), AfterLink(s[1..]));
      } else {
        CopyKeepsSync(m, out, s);
        ReadingAfterCopy(out, s, Copied(m, s));
        OutputIsClear(Then(m, s), out + s[..Copied(m, s)], links, s[Copied(m, s)..]);
      }
    }
  }

  lemma {:induction false} ClearPrefix(a: string, b: string)
    requires Clear(a + b)
    ensures Clear(a)
    decreases |b|
  {
    if b == "" {
      assert a + b == a;
    } else {
      assert (a + b)[..|a + b| - 1] == a + b[..|b| - 1];
      ClearPrefix(a, b[..|b| - 1]);
    }
  }

  /** Looking back and looking ahead find the same plain '@'s. */
  lemma {:induction false} ClearHasNoPlainAt(m: Mode, before: string, s: string)
    requires Synced(m, Read(before), s) && Clear(before + s)
    ensures Cell('@', Plain) !in Cells(m, s)
    decreases |s|
  {
    if s != "" {
      var k := Copied(m, s);
      assert before + s[..k] + s[k..] == before + s;
      ClearPrefix(before + s[..k], s[k..]);
      CopyKeepsSync(m, before, s);
      HeadCell(m, s);
      ClearHasNoPlainAt(Then(m, s), before + s[..k], s[k..]);
    }
  }

  lemma {:induction false} NoPlainAtIsClear(m: Mode, before: string, s: string)
    requires Synced(m, Read(before), s) && Clear(before) && Cell('@', Plain) !in Cells(m, s)
    ensures Clear(before + s)
    decreases |s|
  {
    if s == "" {
      assert before + s == before;
    } else {
      var k := Copied(m, s);
      assert before + s[..k] + s[k..] == before + s;
      CopyKeepsSync(m, before, s);
      HeadCell(m, s);
      NoPlainAtIsClear(Then(m, s), before + s[..k], s[k..]);
    }
  }

  lemma {:induction false} TrimmingKeepsClear(out: string)
    ensures Clear(Trimmed(out)) <==> Clear(out)
  {
    if out != "" && Blank(out[|out| - 1]) {
      TrimmingKeepsClear(out[..|out| - 1]);
    }
  }

  lemma CopyKeepsClear(m: Mode, out: string, s: string)
    requires s != ""
    ensures Clear(out + s[..Copied(m, s)]) <==> Clear(out) && !(s[0] == '@' && IsOpen(Read(out)))
  {
    ReadSnoc(out, s[0]);
    assert s[..1] == [s[0]];
    if Copied(m, s) == 2 {
      ReadSnoc(out + [s[0]], s[1]);
      assert out + s[..2] == out + [s[0]] + [s[1]];
    }
  }

  lemma {:induction false} CoveredIsClear(m: Mode, out: string, links: seq<string>, s: string)
    ensures Clear(Strip(m, out, links, s).text) <==> Clear(out) && Covered(m, ReadingOf(out), s)
    decreases |s|
  {
    if s != "" {
      if m.Normal? && s[0] == '@' {
        TrimmingKeepsClear(out);
        PoppedIsTrimmed(out);
        CoveredIsClear(Normal, Trimmed(out), links + Noted(LinkName(s[1..])), AfterLink(s[1..]));
      } else {
        CopyKeepsClear(m, out, s);
        ReadingAfterCopy(out, s, Copied(m, s));
        CoveredIsClear(Then(m, s), out + s[..Copied(m, s)], links, s[Copied(m, s)..]);
      }
    }
  }

  /** A second pass changes nothing and removes nothing exactly when every protected '@' is still covered in the
      output. */
  lemma SecondPassExactly(s: string)
    ensures var t := Strip(Normal, "", [], s).text;
            Strip(Normal, "", [], t) == Stripped(t, []) <==> Covered(Normal, BEGINNING, s)
  {
    var t := Strip(Normal, "", [], s).text;
    CoveredIsClear(Normal, "", [], s);
    UnchangedExactly(t);
    assert "" + t == t;
    if Clear(t) {
      ClearHasNoPlainAt(Normal, "", t);
    }
    if Cell('@', Plain) !in Cells(Normal, t) {
      NoPlainAtIsClear(Normal, "", t);
    }
  }

  /** When every join is clean, a second pass changes nothing and removes nothing. */
  lemma SecondPassIsIdentity(s: string)
    requires CleanJoins(Normal, BEGINNING, s)
    ensures var t := Strip(Normal, "", [], s).text; Strip(Normal, "", [], t) == Stripped(t, [])
  {
    var t := Strip(Normal, "", [], s).text;
    OutputIsClear(Normal, "", [], s);
    assert "" + t == t;
    ClearHasNoPlainAt(Normal, "", t);
    UnchangedExactly(t);
  }

  lemma CopyOne(m: Mode, out: string, links: seq<string>, c: char, rest: string, next: Mode)
    requires !(m.Normal? && c == '@') && Copied(m, [c] + rest) == 1 && Then(m, [c] + rest) == next
    ensures Strip(m, out, links, [c] + rest) == Strip(next, out + [c], links, rest)
  {
    assert ([c] + rest)[..1] == [c] && ([c] + rest)[1..] == rest;
  }

  lemma Drop(out: string, links: seq<string>, c: char, rest: string)
    requires NameChar(c) && (rest == "" || !NameChar(rest[0]))
    ensures Strip(Normal, out, links, ['@'] + ([c] + rest)) == Strip(Normal, Trimmed(out), links + [[c]], rest)
    ensures AfterLink((['@'] + ([c] + rest))[1..]) == rest
  {
    var s := [c] + rest;
    assert (['@'] + s)[1..] == s && GapLength(s) == 0 && s[0..] == s && s[1..] == rest && s[..1] == [c];
    assert NameLength(s) == 1;
  }

  /** An unclean join can undo this: in `-@l-'@x'` with a line break after the quote, the two dashes
      meet, the quote that protected `@x` ends up in a comment, and a second pass removes `@x`. */
  lemma UncleanJoinExample() returns (s: string, t: string)
    ensures s == ['-'] + (['@'] + (['l'] + (['-'] + (['\''] + TAIL)))) && t == ['-'] + (['-'] + (['\''] + TAIL))
    ensures Strip(Normal, "", [], s).text == t && Strip(Normal, "", [], t).text != t
  {
    DashesMeet(TAIL);
    QuotedTail("--'", ["l"]);
    CommentedTail();
    t := ['-'] + (['-'] + (['\''] + TAIL));
    DashedText(t);
    s := ['-'] + (['@'] + (['l'] + (['-'] + (['\''] + TAIL))));
  }

  lemma DashedText(t: string)
    requires t == ['-'] + (['-'] + (['\''] + TAIL))
    ensures "--'" + TAIL == t
  {
  }

  const TAIL := ['\n'] + (['@'] + (['x'] + ['\'']))

  lemma DashesMeet(rest: string)
    ensures Strip(Normal, "", [], ['-'] + (['@'] + (['l'] + (['-'] + (['\''] + rest))))) ==
            Strip(SingleQuoted, "--'", ["l"], rest)
  {
    var b := ['-'] + (['\''] + rest);
    CopyOne(Normal, "", [], '-', ['@'] + (['l'] + b), Normal);
    assert "" + ['-'] == "-";
    LinkGoes(b);
    SecondDash(rest);
  }

  lemma SecondDash(rest: string)
    ensures Strip(Normal, "-", ["l"], ['-'] + (['\''] + rest)) == Strip(SingleQuoted, "--'", ["l"], rest)
  {
    CopyOne(Normal, "-", ["l"], '-', ['\''] + rest, Normal);
    assert "-" + ['-'] == "--";
    CopyOne(Normal, "--", ["l"], '\'', rest, SingleQuoted);
    assert "--" + ['\''] == "--'";
  }

  lemma LinkGoes(b: string)
    requires b != "" && b[0] == '-'
    ensures Strip(Normal, "-", [], ['@'] + (['l'] + b)) == Strip(Normal, "-", ["l"], b)
  {
    Drop("-", [], 'l', b);
    assert [] + [['l']] == ["l"];
  }

  lemma {:induction false} QuotedIsCopied(out: string, links: seq<string>, s: string)
    requires '\'' !in s
    ensures Strip(SingleQuoted, out, links, s + ['\'']).text == out + (s + ['\''])
    decreases |s|
  {
    var q := ['\''];
    if s == "" {
      assert s + q == q + "";
      CopyOne(SingleQuoted, out, links, '\'', "", Normal);
    } else {
      var rest := s[1..] + q;
      assert s + q == [s[0]] + rest;
      CopyOne(SingleQuoted, out, links, s[0], rest, SingleQuoted);
      QuotedIsCopied(out + [s[0]], links, s[1..]);
      Associative(out, [s[0]], rest);
    }
  }

  lemma QuotedTail(out: string, links: seq<string>)
    ensures Strip(SingleQuoted, out, links, TAIL).text == out + TAIL
  {
    assert TAIL == "\n@x" + ['\''];
    QuotedIsCopied(out, links, "\n@x");
  }

  /** Behind two dashes the '@' of the tail stands in plain SQL. */
  lemma CommentedTail()
    ensures var t := ['-'] + (['-'] + (['\''] + TAIL)); Strip(Normal, "", [], t).text != t
  {
    var e := ['@'] + (['x'] + ['\'']);
    var c := ['\''] + TAIL;
    var b := ['-'] + c;
    HeadCell(Normal, e);
    CellAhead(LineComment, '\n', e, Normal);
    CellAhead(LineComment, '\'', TAIL, LineComment);
    CellAhead(LineComment, '-', c, LineComment);
    CellAhead(Normal, '-', b, LineComment);
    APlainAtShortens(Normal, "", [], ['-'] + b);
  }

  lemma CellAhead(m: Mode, c: char, rest: string, next: Mode)
    requires Copied(m, [c] + rest) == 1 && Then(m, [c] + rest) == next
    requires Cell('@', Plain) in Cells(next, rest)
    ensures Cell('@', Plain) in Cells(m, [c] + rest)
  {
    HeadCell(m, [c] + rest);
    assert ([c] + rest)[1..] == rest;
  }
}
