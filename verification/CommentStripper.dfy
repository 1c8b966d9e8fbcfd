/** Removing C comments before references are scanned. */
module CommentStripper {
  import opened Texts

  datatype Mode = Normal | SingleQuoted | DoubleQuoted | LineComment | BlockComment

  /** What the scanner does at the head of a non-empty text. */
  datatype Move = Move(taken: nat, kept: string, mode: Mode, opens: bool)

  function QuoteOf(m: Mode): char {
    if m.DoubleQuoted? then '"' else '\''
  }

  function Next(m: Mode, s: string): (v: Move)
    requires s != ""
    ensures 1 <= v.taken <= |s|
  {
    match m
    case Normal =>
      if s[0] == '/' && |s| > 1 && s[1] == '/' then Move(2, "", LineComment, true)
      else if s[0] == '/' && |s| > 1 && s[1] == '*' then Move(2, "", BlockComment, true)
      else if s[0] == '"' then Move(1, [s[0]], DoubleQuoted, false)
      else if s[0] == '\'' then Move(1, [s[0]], SingleQuoted, false)
      else Move(1, [s[0]], Normal, false)
    case LineComment =>
      if s[0] == '\n' then Move(1, [s[0]], Normal, false) else Move(1, "", LineComment, false)
    case BlockComment =>
      if s[0] == '\n' then Move(1, [s[0]], BlockComment, false)
      else if s[0] == '*' && |s| > 1 && s[1] == '/' then Move(2, "", Normal, false)
      else Move(1, "", BlockComment, false)
    case _ =>
      if s[0] == '\\' && |s| > 1 then Move(2, s[..2], m, false)
      else Move(1, [s[0]], if s[0] == QuoteOf(m) then Normal else m, false)
  }

  datatype Scanned = Scanned(text: string, comments: nat)

  /** What survives of a non-empty text given what survives after its first move. */
  function After(v: Move, rest: Scanned): Scanned {
    Scanned(v.kept + rest.text, (if v.opens then 1 else 0) + rest.comments)
  }

  /** The text that survives scanning `s` from mode `m`, and how many comments open meanwhile. */
  function Scan(m: Mode, s: string): Scanned
    decreases |s|
  {
    if s == "" then Scanned("", 0) else After(Next(m, s), Scan(Next(m, s).mode, s[Next(m, s).taken..]))
  }

  lemma OneMove(cleaned: string, removed: nat, m: Mode, text: string, i: nat)
    requires i < |text|
    ensures text[i..][0] == text[i]
    ensures i + 1 < |text| ==> text[i..][1] == text[i + 1] && text[i..][..2] == [text[i], text[i + 1]]
    ensures var v := Next(m, text[i..]);
            && Joined(cleaned, removed, Scan(m, text[i..])) ==
               Joined(cleaned + v.kept, removed + (if v.opens then 1 else 0), Scan(v.mode, text[i + v.taken..]))
            && cleaned + "" == cleaned
  {
    var v := Next(m, text[i..]);
    assert text[i..][v.taken..] == text[i + v.taken..];
    Associative(cleaned, v.kept, Scan(v.mode, text[i + v.taken..]).text);
  }

  function Joined(cleaned: string, removed: nat, rest: Scanned): Scanned {
    Scanned(cleaned + rest.text, removed + rest.comments)
  }

  method StripComments(text: string) returns (cleaned: string, removed: nat)
    ensures Scanned(cleaned, removed) == Scan(Normal, text)
  {
    cleaned, removed := "", 0;
    var i, n := 0, |text|;
    var state := Normal;
    while i < n
      invariant 0 <= i <= n
      invariant Joined(cleaned, removed, Scan(state, text[i..])) == Scan(Normal, text)
    {
      var ch := text[i];
      ghost var v := Next(state, text[i..]);
      OneMove(cleaned, removed, state, text, i);
      match state {
      case Normal =>
        if ch == '/' && i + 1 < n && text[i + 1] == '/' {
          assert v == Move(2, "", LineComment, true);
          state := LineComment;
          removed := removed + 1;
          i := i + 2;
          continue;
        } else if ch == '/' && i + 1 < n && text[i + 1] == '*' {
          assert v == Move(2, "", BlockComment, true);
          state := BlockComment;
          removed := removed + 1;
          i := i + 2;
          continue;
        } else if ch == '"' {
          state := DoubleQuoted;
          cleaned := cleaned + [ch];
        } else if ch == '\'' {
          state := SingleQuoted;
          cleaned := cleaned + [ch];
        } else {
          cleaned := cleaned + [ch];
        }
      case LineComment =>
        if ch == '\n' {
          cleaned := cleaned + [ch];
          state := Normal;
        }
      case BlockComment =>
        if ch == '\n' {
          cleaned := cleaned + [ch];
        } else if ch == '*' && i + 1 < n && text[i + 1] == '/' {
          assert v == Move(2, "", Normal, false);
          state := Normal;
          i := i + 2;
          continue;
        }
      case _ =>
        var quote := if state.DoubleQuoted? then '"' else '\'';
        if ch == '\\' && i + 1 < n {
          assert v == Move(2, [ch, text[i + 1]], state, false);
          cleaned := cleaned + [ch, text[i + 1]];
          i := i + 2;
          continue;
        }
        cleaned := cleaned + [ch];
        if ch == quote {
          state := Normal;
        }
      }
      i := i + 1;
    }
  }

  /** The mode a second pass is in while the first pass is in mode `m`: comments are gone. */
  function Seen(m: Mode): Mode {
    if m.LineComment? || m.BlockComment? then Normal else m
  }

  /** Lock step of the first pass over `s` and a second pass over what the first one keeps: the
      second keeps everything and finds no comment, because a kept '/' is followed by the very
      character that followed it in the source. */
  lemma {:induction false} SecondPassKeepsAll(m: Mode, s: string)
    ensures Scan(Seen(m), Scan(m, s).text) == Scanned(Scan(m, s).text, 0)
    decreases |s|
  {
    if s != "" {
      var v := Next(m, s);
      var rest := Scan(v.mode, s[v.taken..]).text;
      SecondPassKeepsAll(v.mode, s[v.taken..]);
      assert Scan(m, s).text == v.kept + rest;
      if v.kept == "" {
        assert Seen(v.mode) == Seen(m) && v.kept + rest == rest;
      } else {
        SameMove(m, s, rest);
        KeepingMove(Seen(m), v.kept, Seen(v.mode), rest);
      }
    }
  }

  /** The second pass makes the same move on what the first pass kept. */
  lemma SameMove(m: Mode, s: string, rest: string)
    requires s != "" && Next(m, s).kept != "" && rest == Scan(Next(m, s).mode, s[Next(m, s).taken..]).text
    ensures var v := Next(m, s);
            Next(Seen(m), v.kept + rest) == Move(|v.kept|, v.kept, Seen(v.mode), false)
  {
    if m.Normal? && s[0] == '/' {
      SlashIsNotRejoined(s);
    }
    MoveBefore(m, s, rest);
  }

  lemma MoveBefore(m: Mode, s: string, rest: string)
    requires s != "" && Next(m, s).kept != "" && (|s| == 1 ==> rest == "")
    requires m.Normal? && s[0] == '/' ==> rest == "" || (rest[0] != '/' && rest[0] != '*')
    ensures var v := Next(m, s);
            Next(Seen(m), v.kept + rest) == Move(|v.kept|, v.kept, Seen(v.mode), false)
  {
    var kept := Next(m, s).kept;
    assert kept[0] == s[0] && (kept + rest)[0] == s[0] && (kept + rest)[..|kept|] == kept;
  }

  lemma KeepingMove(m: Mode, kept: string, after: Mode, rest: string)
    requires kept != "" && Next(m, kept + rest) == Move(|kept|, kept, after, false)
    requires Scan(after, rest) == Scanned(rest, 0)
    ensures Scan(m, kept + rest) == Scanned(kept + rest, 0)
  {
    assert (kept + rest)[|kept|..] == rest;
  }

  lemma SlashIsNotRejoined(s: string)
    requires s != "" && s[0] == '/' && Next(Normal, s).kept != ""
    ensures var rest := Scan(Normal, s[1..]).text; rest == "" || (rest[0] != '/' && rest[0] != '*')
  {
    if |s| > 1 {
      assert s[1..][0] == s[1];
      assert Next(Normal, s[1..]).kept == [s[1]];
    }
  }

  // ----- Lines -----

  /** How many line breaks precede position `p` of `s`. */
  function Line(s: string, p: nat): nat
    requires p <= |s|
  {
    if p == 0 then 0 else (if s[0] == '\n' then 1 else 0) + Line(s[1..], p - 1)
  }

  lemma {:induction false} LineInHead(a: string, b: string, p: nat)
    requires p <= |a|
    ensures Line(a + b, p) == Line(a, p)
  {
    if p > 0 {
      assert (a + b)[1..] == a[1..] + b;
      LineInHead(a[1..], b, p - 1);
    }
  }

  lemma {:induction false} LinePast(a: string, b: string, p: nat)
    requires p <= |b|
    ensures Line(a + b, |a| + p) == Line(a, |a|) + Line(b, p)
  {
    if a == "" {
      assert a + b == b;
    } else {
      assert (a + b)[1..] == a[1..] + b;
      LinePast(a[1..], b, p);
    }
  }

  /** One move of the scan: the source characters it takes and those it keeps. */
  datatype Chunk = Chunk(taken: string, kept: string)

  function Chunks(m: Mode, s: string): seq<Chunk>
    decreases |s|
  {
    if s == "" then [] else
      var v := Next(m, s);
      [Chunk(s[..v.taken], v.kept)] + Chunks(v.mode, s[v.taken..])
  }

  function Taken(chunks: seq<Chunk>): string {
    if chunks == [] then "" else chunks[0].taken + Taken(chunks[1..])
  }

  function Kept(chunks: seq<Chunk>): string {
    if chunks == [] then "" else chunks[0].kept + Kept(chunks[1..])
  }

  /** A move keeps all it takes or nothing, and never drops a line break. */
  ghost predicate KeepsLines(c: Chunk) {
    (c.kept == "" || c.kept == c.taken) && Line(c.taken, |c.taken|) == Line(c.kept, |c.kept|)
  }

  lemma MoveKeepsLines(m: Mode, s: string)
    requires s != ""
    ensures var v := Next(m, s); KeepsLines(Chunk(s[..v.taken], v.kept))
  {
    var v := Next(m, s);
    var head := if v.taken == 1 then [s[0]] else [s[0], s[1]];
    assert s[..v.taken] == head;
    if v.kept == "" {
      if v.taken == 2 {
        LinePast([s[0]], [s[1]], 1);
        assert head == [s[0]] + [s[1]];
      }
    } else {
      assert v.kept == head;
    }
  }

  lemma {:induction false} ChunksSpell(m: Mode, s: string)
    ensures Taken(Chunks(m, s)) == s && Kept(Chunks(m, s)) == Scan(m, s).text
    decreases |s|
  {
    if s != "" {
      var v := Next(m, s);
      ChunksSpell(v.mode, s[v.taken..]);
      assert s[..v.taken] + s[v.taken..] == s;
    }
  }

  lemma {:induction false} ChunksKeepLines(m: Mode, s: string)
    ensures forall c :: c in Chunks(m, s) ==> KeepsLines(c)
    decreases |s|
  {
    if s != "" {
      var v := Next(m, s);
      ChunksKeepLines(v.mode, s[v.taken..]);
      MoveKeepsLines(m, s);
    }
  }

  /** The source position of the `k`-th kept character. */
  function Origin(chunks: seq<Chunk>, k: nat): nat
    requires k < |Kept(chunks)|
  {
    var c := chunks[0];
    if k < |c.kept| then k else |c.taken| + Origin(chunks[1..], k - |c.kept|)
  }

  lemma {:induction false} OriginIsSource(chunks: seq<Chunk>, k: nat)
    requires forall c :: c in chunks ==> KeepsLines(c)
    requires k < |Kept(chunks)|
    ensures Origin(chunks, k) < |Taken(chunks)| && Taken(chunks)[Origin(chunks, k)] == Kept(chunks)[k]
  {
    var c := chunks[0];
    assert c in chunks;
    if k >= |c.kept| {
      OriginIsSource(chunks[1..], k - |c.kept|);
    }
  }

  lemma {:induction false} OriginKeepsLine(chunks: seq<Chunk>, k: nat)
    requires forall c :: c in chunks ==> KeepsLines(c)
    requires k < |Kept(chunks)|
    ensures Origin(chunks, k) <= |Taken(chunks)|
    ensures Line(Taken(chunks), Origin(chunks, k)) == Line(Kept(chunks), k)
  {
    var c, kept, taken := chunks[0], Kept(chunks[1..]), Taken(chunks[1..]);
    assert c in chunks;
    if k < |c.kept| {
      LineInHead(c.kept, kept, k);
      LineInHead(c.taken, taken, k);
    } else {
      OriginKeepsLine(chunks[1..], k - |c.kept|);
      LinePast(c.kept, kept, k - |c.kept|);
      LinePast(c.taken, taken, Origin(chunks[1..], k - |c.kept|));
    }
  }

  lemma {:induction false} OriginsAscend(chunks: seq<Chunk>, k: nat, l: nat)
    requires forall c :: c in chunks ==> KeepsLines(c)
    requires k < l < |Kept(chunks)|
    ensures Origin(chunks, k) < Origin(chunks, l)
  {
    var c := chunks[0];
    assert c in chunks;
    if k >= |c.kept| {
      OriginsAscend(chunks[1..], k - |c.kept|, l - |c.kept|);
    }
  }

  lemma {:induction false} NoLineBreakIsLost(chunks: seq<Chunk>)
    requires forall c :: c in chunks ==> KeepsLines(c)
    ensures Line(Kept(chunks), |Kept(chunks)|) == Line(Taken(chunks), |Taken(chunks)|)
  {
    if chunks != [] {
      assert chunks[0] in chunks;
      NoLineBreakIsLost(chunks[1..]);
      LinePast(chunks[0].kept, Kept(chunks[1..]), |Kept(chunks[1..])|);
      LinePast(chunks[0].taken, Taken(chunks[1..]), |Taken(chunks[1..])|);
    }
  }

  /** Every surviving character is a source character, in source order, on the line it had in the
      source: as many line breaks precede it. No line is lost. */
  lemma LinesAreKept(text: string)
    ensures var chunks, out := Chunks(Normal, text), Scan(Normal, text).text;
            && Kept(chunks) == out
            && (forall k :: 0 <= k < |out| ==>
                  && Origin(chunks, k) < |text| && text[Origin(chunks, k)] == out[k]
                  && Line(text, Origin(chunks, k)) == Line(out, k))
            && (forall k, l :: 0 <= k < l < |out| ==> Origin(chunks, k) < Origin(chunks, l))
            && Line(out, |out|) == Line(text, |text|)
  {
    var chunks, out := Chunks(Normal, text), Scan(Normal, text).text;
    ChunksSpell(Normal, text);
    ChunksKeepLines(Normal, text);
    NoLineBreakIsLost(chunks);
    forall k | 0 <= k < |out|
      ensures Origin(chunks, k) < |text| && text[Origin(chunks, k)] == out[k]
      ensures Line(text, Origin(chunks, k)) == Line(out, k)
    {
      OriginIsSource(chunks, k);
      OriginKeepsLine(chunks, k);
    }
    forall k, l | 0 <= k < l < |out| ensures Origin(chunks, k) < Origin(chunks, l) {
      OriginsAscend(chunks, k, l);
    }
  }

  // ----- Segments -----

  /** A C source cut into single code characters, whole literals and whole comments. */
  datatype Piece = Code(c: char) | Literal(body: string) | Comment(body: string)

  function Raw(p: Piece): string {
    if p.Code? then [p.c] else p.body
  }

  function Source(pieces: seq<Piece>): string {
    if pieces == [] then "" else Raw(pieces[0]) + Source(pieces[1..])
  }

  function LineBreaks(s: string): string {
    if s == "" then "" else (if s[0] == '\n' then "\n" else "") + LineBreaks(s[1..])
  }

  /** Code and literals stay verbatim; of a comment only its line breaks stay. */
  function Remains(pieces: seq<Piece>): string {
    if pieces == [] then ""
    else (if pieces[0].Comment? then LineBreaks(pieces[0].body) else Raw(pieces[0])) + Remains(pieces[1..])
  }

  function Comments(pieces: seq<Piece>): nat {
    if pieces == [] then 0 else (if pieces[0].Comment? then 1 else 0) + Comments(pieces[1..])
  }

  /** `t`, followed by `rest`, is the part of a literal after its opening quote `q`: it runs to the
      first `q` that no backslash escapes, or to the end of the source. */
  ghost predicate LiteralTail(q: char, t: string, rest: string)
    decreases |t|
  {
    if t == "" then rest == ""
    else if t[0] == '\\' && |t| + |rest| > 1 then |t| >= 2 && LiteralTail(q, t[2..], rest)
    else if t[0] == q then |t| == 1
    else LiteralTail(q, t[1..], rest)
  }

  ghost predicate ClosesAt(t: string, i: int) {
    0 <= i < |t| - 1 && t[i] == '*' && t[i + 1] == '/'
  }

  /** `t`, followed by `rest`, is the part of a block comment after its opener. */
  ghost predicate BlockTail(t: string, rest: string) {
    || (ClosesAt(t, |t| - 2) && forall i :: ClosesAt(t, i) ==> i == |t| - 2)
    || (rest == "" && forall i :: !ClosesAt(t, i))
  }

  ghost predicate WellFormed(p: Piece, rest: string) {
    match p
    case Code(c) => c != '"' && c != '\'' && !(c == '/' && rest != "" && (rest[0] == '/' || rest[0] == '*'))
    case Literal(t) => t != "" && (t[0] == '"' || t[0] == '\'') && LiteralTail(t[0], t[1..], rest)
    case Comment(t) =>
      || (|t| >= 2 && t[0] == '/' && t[1] == '/' && '\n' !in t && (rest == "" || rest[0] == '\n'))
      || (|t| >= 2 && t[0] == '/' && t[1] == '*' && BlockTail(t[2..], rest))
  }

  /** `pieces` is the C lexical reading of the text it spells. */
  ghost predicate Reading(pieces: seq<Piece>) {
    pieces != [] ==> WellFormed(pieces[0], Source(pieces[1..])) && Reading(pieces[1..])
  }

  lemma {:induction false} LiteralStays(m: Mode, t: string, rest: string)
    requires (m.SingleQuoted? || m.DoubleQuoted?) && LiteralTail(QuoteOf(m), t, rest)
    ensures Scan(m, t + rest) == Joined(t, 0, Scan(Normal, rest))
    decreases |t|
  {
    var s := t + rest;
    if t != "" {
      var v := Next(m, s);
      assert v.kept == t[..v.taken] && s[v.taken..] == t[v.taken..] + rest;
      Associative(v.kept, t[v.taken..], Scan(Normal, rest).text);
      assert v.kept + t[v.taken..] == t;
      if v.mode.Normal? {
        assert t[v.taken..] == "" && t[v.taken..] + rest == rest;
      } else {
        LiteralStays(m, t[v.taken..], rest);
      }
    } else {
      assert s == rest;
    }
  }

  lemma {:induction false} LineCommentGoes(t: string, rest: string)
    requires '\n' !in t && (rest == "" || rest[0] == '\n')
    ensures Scan(LineComment, t + rest) == Scan(Normal, rest)
  {
    var s := t + rest;
    if t != "" {
      assert s[1..] == t[1..] + rest;
      LineCommentGoes(t[1..], rest);
    } else {
      assert s == rest;
    }
  }

  lemma StepInside(t: string, rest: string)
    requires BlockTail(t, rest) && t != "" && !ClosesAt(t, 0)
    ensures BlockTail(t[1..], rest)
    ensures Next(BlockComment, t + rest) == Move(1, if t[0] == '\n' then "\n" else "", BlockComment, false)
  {
    forall i ensures ClosesAt(t[1..], i) <==> i >= 0 && ClosesAt(t, i + 1) {
    }
  }

  lemma {:induction false} BlockCommentGoes(t: string, rest: string)
    requires BlockTail(t, rest)
    ensures Scan(BlockComment, t + rest) == Joined(LineBreaks(t), 0, Scan(Normal, rest))
    decreases |t|
  {
    if t == "" {
      assert t + rest == rest == "";
    } else if ClosesAt(t, 0) {
      ClosedHere(t, rest);
    } else {
      StepInside(t, rest);
      var first := if t[0] == '\n' then "\n" else "";
      assert (t + rest)[1..] == t[1..] + rest;
      BlockCommentGoes(t[1..], rest);
      Associative(first, LineBreaks(t[1..]), Scan(Normal, rest).text);
    }
  }

  lemma ClosedHere(t: string, rest: string)
    requires BlockTail(t, rest) && ClosesAt(t, 0)
    ensures Scan(BlockComment, t + rest) == Joined(LineBreaks(t), 0, Scan(Normal, rest))
  {
    assert t == "*/" && (t + rest)[2..] == rest;
    NoLineBreaks(t);
  }

  lemma NoLineBreaks(t: string)
    requires '\n' !in t
    ensures LineBreaks(t) == ""
  {
    if t != "" {
      NoLineBreaks(t[1..]);
    }
  }

  /** The stripper removes exactly the comments of the C reading, keeps their line breaks and every
      literal verbatim, and counts them. */
  lemma {:induction false} StripsExactlyTheComments(pieces: seq<Piece>)
    requires Reading(pieces)
    ensures Scan(Normal, Source(pieces)) == Scanned(Remains(pieces), Comments(pieces))
  {
    if pieces != [] {
      StripsExactlyTheComments(pieces[1..]);
      StripsOnePiece(pieces[0], Source(pieces[1..]));
    }
  }

  lemma StripsOnePiece(p: Piece, rest: string)
    requires WellFormed(p, rest)
    ensures Scan(Normal, Raw(p) + rest) ==
            if p.Comment? then Joined(LineBreaks(p.body), 1, Scan(Normal, rest))
            else Joined(Raw(p), 0, Scan(Normal, rest))
  {
    match p {
      case Code(c) =>
        assert ([c] + rest)[1..] == rest;
      case Literal(t) => StripsLiteral(t, rest);
      case Comment(t) => StripsComment(t, rest);
    }
  }

  lemma StripsLiteral(t: string, rest: string)
    requires WellFormed(Literal(t), rest)
    ensures Scan(Normal, t + rest) == Joined(t, 0, Scan(Normal, rest))
  {
    var m := if t[0] == '"' then DoubleQuoted else SingleQuoted;
    LiteralStays(m, t[1..], rest);
    QuoteAhead(t[0], m, t[1..] + rest);
    assert t == [t[0]] + t[1..];
    Associative([t[0]], t[1..], rest);
    Associative([t[0]], t[1..], Scan(Normal, rest).text);
  }

  lemma QuoteAhead(q: char, m: Mode, s: string)
    requires (q == '"' && m == DoubleQuoted) || (q == '\'' && m == SingleQuoted)
    ensures Scan(Normal, [q] + s) == Joined([q], 0, Scan(m, s))
  {
    assert ([q] + s)[0] == q && ([q] + s)[1..] == s;
    assert Next(Normal, [q] + s) == Move(1, [q], m, false);
  }

  lemma StripsComment(t: string, rest: string)
    requires WellFormed(Comment(t), rest)
    ensures Scan(Normal, t + rest) == Joined(LineBreaks(t), 1, Scan(Normal, rest))
  {
    assert (t + rest)[2..] == t[2..] + rest;
    assert LineBreaks(t) == LineBreaks(t[1..]) == LineBreaks(t[2..]) by {
      assert t[1..][1..] == t[2..];
    }
    if t[1] == '/' {
      LineCommentGoes(t[2..], rest);
      NoLineBreaks(t);
    } else {
      BlockCommentGoes(t[2..], rest);
    }
  }

  lemma {:induction false} LiteralEnds(q: char, s: string) returns (n: nat)
    ensures n <= |s| && LiteralTail(q, s[..n], s[n..])
    decreases |s|
  {
    if s == "" {
      n := 0;
    } else if s[0] != '\\' && s[0] == q {
      n := 1;
    } else if s[0] == '\\' && |s| > 1 {
      var k := LiteralEnds(q, s[2..]);
      n := k + 2;
      assert s[..n][2..] == s[2..][..k] && s[n..] == s[2..][k..];
    } else if s[0] == q {
      n := 1;
    } else {
      var k := LiteralEnds(q, s[1..]);
      n := k + 1;
      assert s[..n][1..] == s[1..][..k] && s[n..] == s[1..][k..];
    }
  }

  lemma {:induction false} LineEnds(s: string) returns (n: nat)
    ensures n <= |s| && '\n' !in s[..n] && (n == |s| || s[n] == '\n')
  {
    n := 0;
    while n < |s| && s[n] != '\n'
      invariant n <= |s| && '\n' !in s[..n]
    {
      n := n + 1;
    }
  }

  lemma BlockEnds(s: string) returns (n: nat)
    ensures n <= |s| && BlockTail(s[..n], s[n..])
  {
    n := 0;
    while n < |s| && !ClosesAt(s, n)
      invariant n <= |s| && forall i :: 0 <= i < n ==> !ClosesAt(s, i)
    {
      n := n + 1;
    }
    if n < |s| {
      n := n + 2;
      var t := s[..n];
      assert ClosesAt(t, n - 2);
      forall i | ClosesAt(t, i) ensures i == n - 2 {
        assert ClosesAt(s, i);
      }
    } else {
      assert s[..n] == s;
    }
  }

  /** Every text has a C reading, so StripsExactlyTheComments speaks about every text. */
  lemma {:induction false} EveryTextReads(s: string) returns (pieces: seq<Piece>)
    ensures Reading(pieces) && Source(pieces) == s
    decreases |s|
  {
    if s == "" {
      pieces := [];
    } else {
      var p := FirstPiece(s);
      var rest := EveryTextReads(s[|Raw(p)|..]);
      pieces := [p] + rest;
      assert pieces[1..] == rest;
    }
  }

  lemma FirstPiece(s: string) returns (p: Piece)
    requires s != ""
    ensures 0 < |Raw(p)| <= |s| && Raw(p) == s[..|Raw(p)|] && WellFormed(p, s[|Raw(p)|..])
  {
    if s[0] == '"' || s[0] == '\'' {
      p := FirstLiteral(s);
    } else if s[0] == '/' && |s| > 1 && (s[1] == '/' || s[1] == '*') {
      p := FirstComment(s);
    } else {
      p := Code(s[0]);
    }
  }

  lemma FirstLiteral(s: string) returns (p: Piece)
    requires s != "" && (s[0] == '"' || s[0] == '\'')
    ensures 0 < |Raw(p)| <= |s| && Raw(p) == s[..|Raw(p)|] && WellFormed(p, s[|Raw(p)|..])
  {
    var n := LiteralEnds(s[0], s[1..]);
    TailOf(s, 1, n);
    p := Literal(s[..1 + n]);
  }

  lemma FirstComment(s: string) returns (p: Piece)
    requires |s| > 1 && s[0] == '/' && (s[1] == '/' || s[1] == '*')
    ensures 0 < |Raw(p)| <= |s| && Raw(p) == s[..|Raw(p)|] && WellFormed(p, s[|Raw(p)|..])
  {
    var n: nat;
    if s[1] == '/' {
      n := LineEnds(s[2..]);
    } else {
      n := BlockEnds(s[2..]);
    }
    TailOf(s, 2, n);
    p := Comment(s[..2 + n]);
    assert s[1] == '/' ==> s[..2 + n] == ['/', '/'] + s[2..][..n];
  }

  lemma TailOf(s: string, i: nat, n: nat)
    requires i + n <= |s|
    ensures s[..i + n][i..] == s[i..][..n] && s[i + n..] == s[i..][n..]
  {
  }
}
