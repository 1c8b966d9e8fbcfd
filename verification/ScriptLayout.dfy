/** How statements lie in a script: what may stand between them, and that there is only one way to read them off. */
module ScriptLayout {
  import opened Texts
  import opened KeyConditions
  import opened MigrationScript

  // ----- Texts between texts -----

  /** Line breaks and comment lines only. */
  predicate Quiet(s: string)
    decreases |s|
  {
    || s == ""
    || (s[0] == '\n' && Quiet(s[1..]))
    || (|s| > 1 && s[0] == '-' && s[1] == '-' && Quiet(s[LineLength(s)..]))
  }

  /** Quiet, and a comment does not run on into what follows. */
  predicate Gap(s: string) {
    Quiet(s) && (s == "" || s[|s| - 1] == '\n')
  }

  predicate AllGaps(gaps: seq<string>) {
    gaps == [] || (Gap(gaps[0]) && AllGaps(gaps[1..]))
  }

  predicate EndsLine(s: string) {
    s != "" && s[|s| - 1] == '\n'
  }

  predicate AllEndLines(gaps: seq<string>) {
    gaps == [] || (EndsLine(gaps[0]) && AllEndLines(gaps[1..]))
  }

  /** Each text with its gap in front, and a tail behind the last one. */
  function Woven(gaps: seq<string>, texts: seq<string>, tail: string): string
    requires |gaps| == |texts|
  {
    if texts == [] then tail else gaps[0] + (texts[0] + Woven(gaps[1..], texts[1..], tail))
  }

  predicate AllSoundStmts(stmts: seq<Stmt>) {
    stmts == [] || (SoundStmt(stmts[0]) && AllSoundStmts(stmts[1..]))
  }

  predicate AllRestricted(stmts: seq<Stmt>) {
    stmts == [] || (stmts[0].conds != [] && AllRestricted(stmts[1..]))
  }

  function StmtTexts(stmts: seq<Stmt>): (texts: seq<string>)
    requires AllRestricted(stmts)
    ensures |texts| == |stmts|
  {
    if stmts == [] then [] else [StmtText(stmts[0])] + StmtTexts(stmts[1..])
  }

  lemma StmtTextsAhead(s: Stmt, rest: seq<Stmt>)
    requires s.conds != [] && AllRestricted(rest)
    ensures AllRestricted([s] + rest) && StmtTexts([s] + rest) == [StmtText(s)] + StmtTexts(rest)
  {
    assert ([s] + rest)[1..] == rest;
  }

  // ----- Reading over gaps -----

  lemma {:induction false} LineInside(a: string, b: string)
    requires LineLength(a) < |a| || b == "" || b[0] == '\n'
    ensures LineLength(a + b) == LineLength(a)
  {
    if a == "" {
      assert a + b == b;
    } else if a[0] != '\n' {
      assert (a + b)[1..] == a[1..] + b;
      LineInside(a[1..], b);
    }
  }

  lemma {:induction false} LineIsShorter(a: string)
    requires '\n' in a
    ensures LineLength(a) < |a|
  {
    if a[0] != '\n' {
      LineIsShorter(a[1..]);
    }
  }

  /** Reading passes over a gap. */
  lemma {:induction false} GapIsSkipped(gap: string, rest: string)
    requires Quiet(gap) && (gap == "" || gap[|gap| - 1] == '\n' || rest == "" || rest[0] == '\n')
    ensures ReadScript(gap + rest) == ReadScript(rest)
    decreases |gap|
  {
    if gap == "" {
      assert gap + rest == rest;
    } else if gap[0] == '\n' {
      assert (gap + rest)[1..] == gap[1..] + rest;
      GapIsSkipped(gap[1..], rest);
    } else {
      var n := LineLength(gap);
      if gap[|gap| - 1] == '\n' {
        LineIsShorter(gap);
      }
      LineInside(gap, rest);
      assert (gap + rest)[n..] == gap[n..] + rest;
      GapIsSkipped(gap[n..], rest);
    }
  }

  lemma {:induction false} WovenReads(gaps: seq<string>, stmts: seq<Stmt>)
    requires |gaps| == |stmts| && AllGaps(gaps) && AllRestricted(stmts) && AllSoundStmts(stmts)
    ensures ReadScript(Woven(gaps, StmtTexts(stmts), "")) == Some(stmts)
  {
    if stmts != [] {
      var texts := StmtTexts(stmts);
      var rest := Woven(gaps[1..], texts[1..], "");
      assert texts[1..] == StmtTexts(stmts[1..]);
      GapIsSkipped(gaps[0], StmtText(stmts[0]) + rest);
      StmtReads(stmts[0], rest);
      WovenReads(gaps[1..], stmts[1..]);
      assert stmts == [stmts[0]] + stmts[1..];
    }
  }

  // ----- What has been read lies in gaps -----

  lemma StmtTextStarts(s: Stmt)
    requires s.conds != []
    ensures StmtText(s) != "" && StmtText(s)[0] != '\n' && StmtText(s)[0] != '-'
  {
  }

  lemma QuietAhead(line: string, gap: string)
    requires line == "\n" || (|line| > 1 && line[0] == line[1] == '-' && '\n' !in line && (gap == "" || gap[0] == '\n'))
    requires Quiet(gap)
    ensures Quiet(line + gap)
  {
    var s := line + gap;
    if line == "\n" {
      assert s[1..] == gap;
    } else {
      WholeLine(line);
      LineInside(line, gap);
      assert s[|line|..] == gap;
    }
  }

  lemma {:induction false} WholeLine(line: string)
    requires '\n' !in line
    ensures LineLength(line) == |line|
  {
    if line != "" {
      WholeLine(line[1..]);
    }
  }

  lemma {:induction false} LineHasNoBreak(s: string)
    ensures '\n' !in s[..LineLength(s)] && (LineLength(s) < |s| ==> s[LineLength(s)] == '\n')
  {
    if s != "" && s[0] != '\n' {
      LineHasNoBreak(s[1..]);
      assert s[..LineLength(s)] == [s[0]] + s[1..][..LineLength(s[1..])];
    }
  }

  ghost predicate LaidOut(s: string, stmts: seq<Stmt>, gaps: seq<string>, tail: string) {
    && AllSoundStmts(stmts) && AllRestricted(stmts)
    && |gaps| == |stmts| && AllGaps(gaps) && Quiet(tail) && s == Woven(gaps, StmtTexts(stmts), tail)
  }

  /** A readable script is its statements' texts with gaps in front of them and a quiet tail. */
  lemma {:induction false} Layout(s: string) returns (gaps: seq<string>, tail: string)
    requires ReadScript(s).Some?
    ensures LaidOut(s, ReadScript(s).value, gaps, tail)
    decreases |s|
  {
    if s == "" {
      gaps, tail := [], "";
      return;
    }
    var front := FrontOf(s);
    gaps, tail := Layout(front.rest);
    if front.Skip? {
      gaps, tail := LayoutBehindLine(s, front.rest, gaps, tail);
    } else {
      LayoutBehindStmt(s, front.stmt, front.rest, gaps, tail);
      gaps := [""] + gaps;
    }
  }

  lemma TextAhead(text: string, gaps: seq<string>, texts: seq<string>, tail: string)
    requires |gaps| == |texts|
    ensures Woven([""] + gaps, [text] + texts, tail) == text + Woven(gaps, texts, tail)
  {
    assert ([""] + gaps)[1..] == gaps && ([text] + texts)[1..] == texts;
    assert "" + (text + Woven(gaps, texts, tail)) == text + Woven(gaps, texts, tail);
  }

  lemma LayoutBehindStmt(s: string, stmt: Stmt, rest: string, gaps: seq<string>, tail: string)
    requires s != "" && FrontOf(s) == Statement(stmt, rest) && ReadScript(rest).Some?
    requires LaidOut(rest, ReadScript(rest).value, gaps, tail)
    ensures LaidOut(s, [stmt] + ReadScript(rest).value, [""] + gaps, tail)
  {
    OnlyStmtsRead(s);
    LaidOutAhead(stmt, rest, ReadScript(rest).value, gaps, tail);
  }

  lemma LaidOutAhead(stmt: Stmt, rest: string, stmts: seq<Stmt>, gaps: seq<string>, tail: string)
    requires SoundStmt(stmt) && stmt.conds != [] && LaidOut(rest, stmts, gaps, tail)
    ensures LaidOut(StmtText(stmt) + rest, [stmt] + stmts, [""] + gaps, tail)
  {
    assert ([""] + gaps)[1..] == gaps && ([stmt] + stmts)[1..] == stmts;
    StmtTextsAhead(stmt, stmts);
    TextAhead(StmtText(stmt), gaps, StmtTexts(stmts), tail);
  }

  lemma LineAhead(line: string, gaps: seq<string>, texts: seq<string>, tail: string)
    requires |gaps| == |texts| && texts != []
    ensures Woven([line + gaps[0]] + gaps[1..], texts, tail) == line + Woven(gaps, texts, tail)
  {
    assert ([line + gaps[0]] + gaps[1..])[1..] == gaps[1..];
    Associative(line, gaps[0], texts[0] + Woven(gaps[1..], texts[1..], tail));
  }

  /** The line that is skipped at the head of `s`: a line break, or a comment up to its line break. */
  lemma SkippedLine(s: string, rest: string) returns (line: string)
    requires s != "" && FrontOf(s) == Skip(rest)
    ensures s == line + rest
    ensures line == "\n" ||
            (|line| > 1 && line[0] == line[1] == '-' && '\n' !in line && (rest == "" || rest[0] == '\n'))
  {
    line := s[..|s| - |rest|];
    LineHasNoBreak(s);
  }

  lemma GapBehindLine(line: string, gap: string, text: string)
    requires Gap(gap) && text != "" && text[0] != '\n'
    requires line == "\n" || (|line| > 1 && line[0] == line[1] == '-' && '\n' !in line && (gap + text)[0] == '\n')
    ensures Gap(line + gap)
  {
    assert gap == "" ==> gap + text == text;
    QuietAhead(line, gap);
  }

  lemma LayoutBehindLine(s: string, rest: string, gaps: seq<string>, tail: string)
    returns (all: seq<string>, end: string)
    requires s != "" && FrontOf(s) == Skip(rest) && ReadScript(rest).Some?
    requires LaidOut(rest, ReadScript(rest).value, gaps, tail)
    ensures LaidOut(s, ReadScript(rest).value, all, end)
  {
    var stmts := ReadScript(rest).value;
    var line := SkippedLine(s, rest);
    if stmts == [] {
      QuietAhead(line, rest);
      all, end := gaps, s;
    } else {
      var texts := StmtTexts(stmts);
      StmtTextStarts(stmts[0]);
      GapBehindLine(line, gaps[0], texts[0] + Woven(gaps[1..], texts[1..], tail));
      LineAhead(line, gaps, texts, tail);
      all, end := [line + gaps[0]] + gaps[1..], tail;
      assert all[1..] == gaps[1..];
    }
  }

  // ----- There is only one way -----

  predicate Starts(text: string) {
    text != "" && text[0] != '\n' && text[0] != '-'
  }

  predicate AllStart(texts: seq<string>) {
    texts == [] || (Starts(texts[0]) && AllStart(texts[1..]))
  }

  /** Every line of `s` is empty or begins with a dash. */
  ghost predicate QuietLines(s: string) {
    forall p :: 0 <= p < |s| && (p == 0 || s[p - 1] == '\n') ==> s[p] == '\n' || s[p] == '-'
  }

  lemma {:induction false} QuietHasQuietLines(s: string)
    requires Quiet(s)
    ensures QuietLines(s)
    decreases |s|
  {
    if s != "" {
      var n := if s[0] == '\n' then 1 else LineLength(s);
      var rest := s[n..];
      LineHasNoBreak(s);
      QuietHasQuietLines(rest);
      assert forall q :: 0 <= q < n ==> s[q] == s[..n][q];
      forall p | 0 <= p < |s| && (p == 0 || s[p - 1] == '\n') ensures s[p] == '\n' || s[p] == '-' {
        if p >= n {
          assert s[p] == rest[p - n];
          assert p > n ==> rest[p - n - 1] == '\n';
        }
      }
    }
  }

  lemma NotQuiet(s: string, q: nat)
    requires q < |s| && (q == 0 || s[q - 1] == '\n') && s[q] != '\n' && s[q] != '-'
    ensures !QuietLines(s)
  {
  }

  /** A text `x` whose first `l` characters come again at distance `d`, on a new line: the last echo of its head begins
      a line behind those characters. */
  lemma {:induction false} EchoGoesOn(x: string, l: nat, d: nat, p: nat)
    requires 0 < d <= p < l + d <= |x| && Starts(x) && x[d - 1] == '\n'
    requires forall i :: d <= i < l + d ==> x[i] == x[i - d]
    requires x[p] == x[0] && x[p - 1] == '\n'
    ensures !QuietLines(x[l..])
    decreases l + d - p
  {
    if p < l {
      assert x[p + d] == x[p + d - d] && x[p + d - 1] == x[p + d - 1 - d];
      EchoGoesOn(x, l, d, p + d);
    } else {
      var gap, q := x[l..], p - l;
      assert gap[q] == x[p] == x[0];
      assert q > 0 ==> gap[q - 1] == x[p - 1];
      NotQuiet(gap, q);
    }
  }

  lemma EchoInGap(w: string, gap: string, pre: string, u: string)
    requires Starts(w) && EndsLine(pre) && |gap| >= |pre|
    requires w <= u && w + gap <= pre + u
    ensures !QuietLines(gap)
  {
    var x, d := w + gap, |pre|;
    assert x[|w|..] == gap && x[0] == w[0] && x[d - 1] == pre[d - 1];
    forall i | d <= i < |w| + d ensures x[i] == x[i - d] {
      assert x[i] == (pre + u)[i] == u[i - d] == w[i - d];
    }
    EchoGoesOn(x, |w|, d, d);
  }

  /** Two layouts of the same texts, the second one ending with the last text: the first one cannot begin earlier. */
  lemma {:induction false} NotEarlier(gaps: seq<string>, tail: string, given: seq<string>, texts: seq<string>,
                                           pre: string)
    requires texts != [] && |gaps| == |given| == |texts| - 1 && AllStart(texts)
    requires AllGaps(gaps) && Quiet(tail) && AllEndLines(given) && EndsLine(pre)
    ensures texts[0] + Woven(gaps, texts[1..], tail) != pre + (texts[0] + Woven(given, texts[1..], ""))
    decreases |texts|
  {
    var w, more := texts[0], texts[1..];
    var u := w + Woven(given, more, "");
    if w + Woven(gaps, more, tail) == pre + u {
      if more == [] {
        LastIsNotEarlier(w, tail, pre);
      } else {
        var v' := more[0] + Woven(gaps[1..], more[1..], tail);
        var u' := more[0] + Woven(given[1..], more[1..], "");
        NextAligned(w, gaps[0], v', pre, given[0], u');
        NotEarlier(gaps[1..], tail, given[1..], more, v'[..|v'| - |u'|]);
      }
    }
  }

  lemma LastIsNotEarlier(w: string, tail: string, pre: string)
    requires Starts(w) && EndsLine(pre) && Quiet(tail)
    ensures w + tail != pre + (w + "")
  {
    QuietHasQuietLines(tail);
    if w + tail == pre + (w + "") {
      EchoInGap(w, tail, pre, w + "");
    }
  }

  /** When a text begins earlier in one layout than in the other, so does the next one. */
  lemma NextAligned(w: string, gap: string, v: string, pre: string, given: string, u: string)
    requires Starts(w) && EndsLine(pre) && EndsLine(given) && Gap(gap)
    requires w + (gap + v) == pre + (w + (given + u))
    ensures |v| > |u| && EndsLine(v[..|v| - |u|]) && v == v[..|v| - |u|] + u
  {
    Associative(w, gap, v);
    QuietHasQuietLines(gap);
    if |v| <= |u| {
      EchoInGap(w, gap, pre, w + (given + u));
    }
    Associative(w, given, u);
    Associative(pre, w + given, u);
    SameSuffix(w + gap, v, pre + (w + given), u);
  }

  lemma SameSuffix(a: string, v: string, b: string, u: string)
    requires a + v == b + u && |v| > |u| && EndsLine(b)
    ensures v == v[..|v| - |u|] + u && EndsLine(v[..|v| - |u|])
  {
    var whole, k := a + v, |v| - |u|;
    forall i | 0 <= i < |v| ensures v[i] == (v[..k] + u)[i] {
      assert v[i] == whole[|a| + i];
    }
    assert v[k - 1] == whole[|a| + k - 1] && |a| + k == |b|;
  }

  lemma NotLater(gap: string, v: string, given: string, u: string)
    requires gap + v == given + u && |gap| > |given| && EndsLine(given) && Starts(u)
    ensures !QuietLines(gap)
  {
    var whole, k := gap + v, |given|;
    assert gap[k] == whole[k] == (given + u)[k] == u[0];
    assert gap[k - 1] == whole[k - 1] == given[k - 1];
  }

  /** Texts can be read off a script in one way only: the gaps are those it was written with. */
  lemma {:induction false} SameGaps(gaps: seq<string>, tail: string, given: seq<string>, texts: seq<string>)
    requires |gaps| == |given| == |texts| && AllStart(texts)
    requires AllGaps(gaps) && Quiet(tail) && AllEndLines(given)
    requires Woven(gaps, texts, tail) == Woven(given, texts, "")
    ensures gaps == given && tail == ""
  {
    if texts != [] {
      var v := texts[0] + Woven(gaps[1..], texts[1..], tail);
      var u := texts[0] + Woven(given[1..], texts[1..], "");
      FirstGap(gaps, tail, given, texts);
      assert v == (gaps[0] + v)[|gaps[0]|..] == u;
      assert v[|texts[0]|..] == Woven(gaps[1..], texts[1..], tail) &&
             u[|texts[0]|..] == Woven(given[1..], texts[1..], "");
      SameGaps(gaps[1..], tail, given[1..], texts[1..]);
      assert gaps == [gaps[0]] + gaps[1..] && given == [given[0]] + given[1..];
    }
  }

  lemma FirstGap(gaps: seq<string>, tail: string, given: seq<string>, texts: seq<string>)
    requires |gaps| == |given| == |texts| && AllStart(texts) && texts != []
    requires AllGaps(gaps) && Quiet(tail) && AllEndLines(given)
    requires Woven(gaps, texts, tail) == Woven(given, texts, "")
    ensures gaps[0] == given[0]
  {
    var v := texts[0] + Woven(gaps[1..], texts[1..], tail);
    var u := texts[0] + Woven(given[1..], texts[1..], "");
    QuietHasQuietLines(gaps[0]);
    if |gaps[0]| < |given[0]| {
      SameSuffix(gaps[0], v, given[0], u);
      NotEarlier(gaps[1..], tail, given[1..], texts, v[..|v| - |u|]);
    } else if |gaps[0]| > |given[0]| {
      NotLater(gaps[0], v, given[0], u);
    } else {
      assert gaps[0] == (gaps[0] + v)[..|gaps[0]|] == given[0];
    }
  }

  lemma {:induction false} StmtTextsStart(stmts: seq<Stmt>)
    requires AllRestricted(stmts)
    ensures AllStart(StmtTexts(stmts))
  {
    if stmts != [] {
      StmtTextStarts(stmts[0]);
      StmtTextsStart(stmts[1..]);
      assert StmtTexts(stmts)[1..] == StmtTexts(stmts[1..]);
    }
  }

  /** Statements written with line-ending gaps in front of them read as those statements exactly when they are on names
      and the gaps hold nothing but line breaks and comments. */
  lemma WovenReadsExactly(gaps: seq<string>, stmts: seq<Stmt>)
    requires |gaps| == |stmts| && AllRestricted(stmts) && AllEndLines(gaps)
    ensures ReadScript(Woven(gaps, StmtTexts(stmts), "")) == Some(stmts) <==> AllSoundStmts(stmts) && AllGaps(gaps)
  {
    var s := Woven(gaps, StmtTexts(stmts), "");
    if ReadScript(s) == Some(stmts) {
      var found, tail := Layout(s);
      StmtTextsStart(stmts);
      SameGaps(found, tail, gaps, StmtTexts(stmts));
    }
    if AllSoundStmts(stmts) && AllGaps(gaps) {
      WovenReads(gaps, stmts);
    }
  }

  /** A script reads as no statement exactly when it holds nothing but line breaks and comments. */
  lemma NothingReadsExactly(s: string)
    ensures ReadScript(s) == Some([]) <==> Quiet(s)
  {
    if ReadScript(s) == Some([]) {
      var gaps, tail := Layout(s);
    }
    if Quiet(s) {
      GapIsSkipped(s, "");
      assert s + "" == s;
    }
  }
}
