/** SQL cut into plain characters, protected segments and link references, and what the pass makes of each. */
module SqlPieces {
  import opened Texts
  import opened DbLinkStripper
  import CommentStripper

  // ----- What goes with an '@' -----

  predicate BeforeLink(c: char) {
    c == ' ' || c == '\t'
  }

  predicate InGap(c: char) {
    c == ' ' || c == '\t' || c == '\r' || c == '\n'
  }

  predicate InName(c: char) {
    'A' <= c <= 'Z' || 'a' <= c <= 'z' || '0' <= c <= '9' || c == '_' || c == '$' || c == '#' || c == '.'
  }

  /** The gap and the name behind an '@' go as far as they can. */
  ghost predicate LinkEnds(gap: string, name: string, rest: string) {
    && (forall c :: c in gap ==> InGap(c)) && (forall c :: c in name ==> InName(c))
    && (rest != "" ==> !InName(rest[0]) && (name == "" ==> !InGap(rest[0])))
  }

  lemma {:induction false} TrimmedExactly(out: string, blanks: string)
    requires (out == "" || !BeforeLink(out[|out| - 1])) && forall c :: c in blanks ==> BeforeLink(c)
    ensures Trimmed(out + blanks) == out
    decreases |blanks|
  {
    if blanks == "" {
      assert out + blanks == out;
    } else {
      var front := blanks[..|blanks| - 1];
      assert blanks[|blanks| - 1] in blanks;
      assert (out + blanks)[..|out + blanks| - 1] == out + front;
      TrimmedExactly(out, front);
    }
  }

  lemma {:induction false} GapOf(gap: string, rest: string)
    requires (forall c :: c in gap ==> InGap(c)) && (rest == "" || !InGap(rest[0]))
    ensures GapLength(gap + rest) == |gap|
  {
    if gap == "" {
      assert gap + rest == rest;
    } else {
      assert gap[0] in gap && (gap + rest)[1..] == gap[1..] + rest;
      GapOf(gap[1..], rest);
    }
  }

  lemma {:induction false} NameOf(name: string, rest: string)
    requires (forall c :: c in name ==> InName(c)) && (rest == "" || !InName(rest[0]))
    ensures NameLength(name + rest) == |name|
  {
    if name == "" {
      assert name + rest == rest;
    } else {
      assert name[0] in name && (name + rest)[1..] == name[1..] + rest;
      NameOf(name[1..], rest);
    }
  }

  lemma LinkPieces(gap: string, name: string, rest: string)
    requires LinkEnds(gap, name, rest)
    ensures LinkName(gap + (name + rest)) == name && AfterLink(gap + (name + rest)) == rest
  {
    var tail := name + rest;
    if name != "" {
      assert name[0] in name && tail[0] == name[0];
    }
    GapOf(gap, tail);
    NameOf(name, rest);
    assert (gap + tail)[|gap|..] == tail && tail[..|name|] == name && tail[|name|..] == rest;
  }

  /** An '@' in plain SQL takes the blanks and tabs before it, the gap behind it and the whole name with it, and
      the name, if there is one, is noted. */
  lemma LinkGoesWhole(out: string, blanks: string, links: seq<string>, gap: string, name: string, rest: string)
    requires (out == "" || !BeforeLink(out[|out| - 1])) && forall c :: c in blanks ==> BeforeLink(c)
    requires LinkEnds(gap, name, rest)
    ensures DbLinkStripper.Strip(Normal, out + blanks, links, "@" + (gap + (name + rest))) ==
            DbLinkStripper.Strip(Normal, out, if name == "" then links else links + [name], rest)
  {
    TrimmedExactly(out, blanks);
    LinkPieces(gap, name, rest);
    DropStep(out + blanks, links, "@" + (gap + (name + rest)), 0);
    assert ("@" + (gap + (name + rest)))[1..] == gap + (name + rest);
    assert ("@" + (gap + (name + rest)))[0..] == "@" + (gap + (name + rest));
    assert links + [] == links;
  }

  // ----- Pieces -----

  /** A plain character, a whole string, quoted identifier or comment, or an '@' with its gap and name. */
  datatype Piece = Plain(c: char) | Guarded(text: string) | Link(gap: string, name: string)

  function Raw(p: Piece): string {
    match p
    case Plain(c) => [c]
    case Guarded(text) => text
    case Link(gap, name) => "@" + (gap + name)
  }

  function Source(pieces: seq<Piece>): string {
    if pieces == [] then "" else Raw(pieces[0]) + Source(pieces[1..])
  }

  /** `t`, followed by `rest`, runs up to the first `end`, that one included, or to the end of the source. */
  ghost predicate RunsTo(end: char, t: string, rest: string) {
    || (t != "" && t[|t| - 1] == end && end !in t[..|t| - 1])
    || (end !in t && rest == "")
  }

  ghost predicate WholeSegment(t: string, rest: string) {
    || (t != "" && t[0] == '\'' && RunsTo('\'', t[1..], rest))
    || (t != "" && t[0] == '"' && RunsTo('"', t[1..], rest))
    || (|t| > 1 && t[0] == '-' && t[1] == '-' && RunsTo('\n', t[1..], rest))
    || (|t| > 1 && t[0] == '/' && t[1] == '*' && CommentStripper.BlockTail(t[1..], rest))
  }

  ghost predicate WellFormed(p: Piece, rest: string) {
    match p
    case Plain(c) =>
      && c != '\'' && c != '"' && c != '@'
      && !(c == '-' && rest != "" && rest[0] == '-') && !(c == '/' && rest != "" && rest[0] == '*')
    case Guarded(text) => WholeSegment(text, rest)
    case Link(gap, name) => LinkEnds(gap, name, rest)
  }

  /** `pieces` is the lexical reading of the SQL text it spells. */
  ghost predicate Reading(pieces: seq<Piece>) {
    pieces != [] ==> WellFormed(pieces[0], Source(pieces[1..])) && Reading(pieces[1..])
  }

  /** What is put out behind `out`: plain characters and segments verbatim; a link takes the blanks before it
      with it. */
  function Cleaned(out: string, pieces: seq<Piece>): string
    decreases |pieces|
  {
    if pieces == [] then out
    else Cleaned(if pieces[0].Link? then Trimmed(out) else out + Raw(pieces[0]), pieces[1..])
  }

  /** `links` and the names of the links in `pieces`, in order. */
  function Names(links: seq<string>, pieces: seq<Piece>): seq<string>
    decreases |pieces|
  {
    if pieces == [] then links
    else Names(if pieces[0].Link? && pieces[0].name != "" then links + [pieces[0].name] else links, pieces[1..])
  }

  // ----- Segments pass whole -----

  lemma {:induction false} RunStays(m: Mode, end: char, out: string, links: seq<string>, t: string, rest: string)
    requires (m == SingleQuoted && end == '\'') || (m == DoubleQuoted && end == '"')
             || (m == LineComment && end == '\n')
    requires RunsTo(end, t, rest)
    ensures DbLinkStripper.Strip(m, out, links, t + rest) == DbLinkStripper.Strip(Normal, out + t, links, rest)
    decreases |t|
  {
    if t == "" {
      assert t + rest == "" && out + t == out;
    } else {
      var more := t[1..];
      assert t == [t[0]] + more && t + rest == [t[0]] + (more + rest);
      CopyOne(m, out, links, t[0], more + rest, if t[0] == end then Normal else m);
      Associative(out, [t[0]], more);
      if t[0] == end {
        assert |t| == 1 && more + rest == rest;
      } else {
        assert more != "" ==> more[..|more| - 1] == t[..|t| - 1][1..];
        RunStays(m, end, out + [t[0]], links, more, rest);
      }
    }
  }

  lemma {:induction false} BlockStays(out: string, links: seq<string>, t: string, rest: string)
    requires CommentStripper.BlockTail(t, rest)
    ensures DbLinkStripper.Strip(BlockComment, out, links, t + rest) ==
            DbLinkStripper.Strip(Normal, out + t, links, rest)
    decreases |t|
  {
    if t == "" {
      assert t + rest == "" && out + t == out;
    } else if CommentStripper.ClosesAt(t, 0) {
      assert |t| == 2 && (t + rest)[..2] == t && (t + rest)[2..] == rest;
    } else {
      var more := t[1..];
      assert t == [t[0]] + more && t + rest == [t[0]] + (more + rest);
      CommentStripper.StepInside(t, rest);
      assert !TwoAhead(t + rest, '*', '/');
      CopyOne(BlockComment, out, links, t[0], more + rest, BlockComment);
      Associative(out, [t[0]], more);
      BlockStays(out + [t[0]], links, more, rest);
    }
  }

  lemma SegmentStays(out: string, links: seq<string>, t: string, rest: string)
    requires WholeSegment(t, rest)
    ensures DbLinkStripper.Strip(Normal, out, links, t + rest) == DbLinkStripper.Strip(Normal, out + t, links, rest)
  {
    var more := t[1..];
    var m := if t[0] == '\'' then SingleQuoted else if t[0] == '"' then DoubleQuoted
             else if t[0] == '-' then LineComment else BlockComment;
    assert t == [t[0]] + more && t + rest == [t[0]] + (more + rest);
    CopyOne(Normal, out, links, t[0], more + rest, m);
    Associative(out, [t[0]], more);
    if m.BlockComment? {
      BlockStays(out + [t[0]], links, more, rest);
    } else {
      RunStays(m, if m.LineComment? then '\n' else t[0], out + [t[0]], links, more, rest);
    }
  }

  lemma {:induction false} TrimmedSplits(out: string) returns (blanks: string)
    ensures out == Trimmed(out) + blanks && forall c :: c in blanks ==> BeforeLink(c)
    ensures Trimmed(out) == "" || !BeforeLink(Trimmed(out)[|Trimmed(out)| - 1])
  {
    if out != "" && BeforeLink(out[|out| - 1]) {
      blanks := TrimmedSplits(out[..|out| - 1]);
      blanks := blanks + [out[|out| - 1]];
    } else {
      blanks := "";
    }
  }

  /** One piece at the head of what is left. */
  lemma PieceStep(out: string, links: seq<string>, p: Piece, rest: string)
    requires WellFormed(p, rest)
    ensures DbLinkStripper.Strip(Normal, out, links, Raw(p) + rest) ==
            DbLinkStripper.Strip(Normal, if p.Link? then Trimmed(out) else out + Raw(p),
                                 if p.Link? && p.name != "" then links + [p.name] else links, rest)
  {
    match p {
      case Plain(c) => CopyOne(Normal, out, links, c, rest, Normal);
      case Guarded(text) => SegmentStays(out, links, text, rest);
      case Link(gap, name) =>
        var blanks := TrimmedSplits(out);
        LinkGoesWhole(Trimmed(out), blanks, links, gap, name, rest);
        assert Raw(p) + rest == "@" + (gap + (name + rest));
    }
  }

  lemma {:induction false} StripsPieces(out: string, links: seq<string>, pieces: seq<Piece>)
    requires Reading(pieces)
    ensures DbLinkStripper.Strip(Normal, out, links, Source(pieces)) ==
            Stripped(Cleaned(out, pieces), Names(links, pieces))
    decreases |pieces|
  {
    if pieces != [] {
      var p, rest := pieces[0], pieces[1..];
      PieceStep(out, links, p, Source(rest));
      StripsPieces(if p.Link? then Trimmed(out) else out + Raw(p),
                   if p.Link? && p.name != "" then links + [p.name] else links, rest);
    }
  }

  /** The pass takes out exactly the links of a text: its plain characters and segments stay verbatim, and the names of
      its links are returned in order. */
  lemma StripsExactlyTheLinks(pieces: seq<Piece>)
    requires Reading(pieces)
    ensures DbLinkStripper.Strip(Normal, "", [], Source(pieces)) == Stripped(Cleaned("", pieces), Names([], pieces))
  {
    StripsPieces("", [], pieces);
  }

  // ----- Every text reads -----

  lemma {:induction false} RunEnds(end: char, s: string) returns (n: nat)
    ensures n <= |s| && RunsTo(end, s[..n], s[n..])
  {
    if s == "" {
      n := 0;
    } else if s[0] == end {
      n := 1;
      assert s[..1][..0] == "";
    } else {
      n := RunEnds(end, s[1..]);
      var t, u := s[..n + 1], s[1..][..n];
      assert t == [s[0]] + u && s[n + 1..] == s[1..][n..];
      if u != "" && u[|u| - 1] == end && end !in u[..|u| - 1] {
        assert t[..|t| - 1] == [s[0]] + u[..|u| - 1];
      }
      n := n + 1;
    }
  }

  lemma {:induction false} GapInFront(s: string) returns (gap: string, tail: string)
    ensures s == gap + tail && (forall c :: c in gap ==> InGap(c)) && (tail == "" || !InGap(tail[0]))
  {
    gap, tail := "", s;
    if s != "" && InGap(s[0]) {
      gap, tail := GapInFront(s[1..]);
      gap := [s[0]] + gap;
    }
  }

  lemma {:induction false} NameInFront(s: string) returns (name: string, rest: string)
    ensures s == name + rest && (forall c :: c in name ==> InName(c)) && (rest == "" || !InName(rest[0]))
  {
    name, rest := "", s;
    if s != "" && InName(s[0]) {
      name, rest := NameInFront(s[1..]);
      name := [s[0]] + name;
    }
  }

  lemma FirstLink(s: string) returns (p: Piece)
    requires s != "" && s[0] == '@'
    ensures 0 < |Raw(p)| <= |s| && Raw(p) == s[..|Raw(p)|] && WellFormed(p, s[|Raw(p)|..])
  {
    var gap, tail := GapInFront(s[1..]);
    var name, rest := NameInFront(tail);
    assert name == "" ==> tail == rest;
    LinkInFront(s, gap, name, rest);
    p := Link(gap, name);
  }

  lemma LinkInFront(s: string, gap: string, name: string, rest: string)
    requires s == "@" + (gap + (name + rest))
    ensures var raw := "@" + (gap + name); |raw| <= |s| && raw == s[..|raw|] && rest == s[|raw|..]
  {
    var raw := "@" + (gap + name);
    assert s == raw + rest;
  }

  lemma FirstSegment(s: string) returns (p: Piece)
    requires s != ""
    requires s[0] == '\'' || s[0] == '"' || TwoAhead(s, '-', '-') || TwoAhead(s, '/', '*')
    ensures 0 < |Raw(p)| <= |s| && Raw(p) == s[..|Raw(p)|] && WellFormed(p, s[|Raw(p)|..])
  {
    var n: nat;
    if s[0] == '/' {
      n := CommentStripper.BlockEnds(s[1..]);
    } else {
      n := RunEnds(if s[0] == '-' then '\n' else s[0], s[1..]);
    }
    p := Guarded(s[..1 + n]);
    assert s[..1 + n][1..] == s[1..][..n] && s[1 + n..] == s[1..][n..];
  }

  lemma FirstPiece(s: string) returns (p: Piece)
    requires s != ""
    ensures 0 < |Raw(p)| <= |s| && Raw(p) == s[..|Raw(p)|] && WellFormed(p, s[|Raw(p)|..])
  {
    if s[0] == '@' {
      p := FirstLink(s);
    } else if s[0] == '\'' || s[0] == '"' || TwoAhead(s, '-', '-') || TwoAhead(s, '/', '*') {
      p := FirstSegment(s);
    } else {
      p := Piece.Plain(s[0]);
    }
  }

  /** Every text is the source of some pieces. */
  lemma {:induction false} EverySqlReads(s: string) returns (pieces: seq<Piece>)
    ensures Reading(pieces) && Source(pieces) == s
    decreases |s|
  {
    if s == "" {
      pieces := [];
    } else {
      var p := FirstPiece(s);
      var rest := EverySqlReads(s[|Raw(p)|..]);
      pieces := [p] + rest;
      assert pieces[1..] == rest;
    }
  }
}
