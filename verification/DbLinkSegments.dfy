/** Taking links out of SQL only thins plain SQL: every protected segment stays in one piece. */
module DbLinkSegments {
  import opened Texts
  import opened DbLinkStripper

  /** `kept` is `full` with some plain characters left out, and nothing put in. */
  predicate Thins(full: seq<Cell>, kept: seq<Cell>)
    decreases |full|
  {
    if full == [] then kept == []
    else
      var front, last := full[..|full| - 1], full[|full| - 1];
      || (kept != [] && kept[|kept| - 1] == last && Thins(front, kept[..|kept| - 1]))
      || (last.place.Plain? && Thins(front, kept))
  }

  predicate AllPlain(cells: seq<Cell>) {
    forall i :: 0 <= i < |cells| ==> cells[i].place.Plain?
  }

  predicate NonePlain(cells: seq<Cell>) {
    forall i :: 0 <= i < |cells| ==> !cells[i].place.Plain?
  }

  lemma ThinsBoth(full: seq<Cell>, kept: seq<Cell>, c: Cell)
    requires Thins(full, kept)
    ensures Thins(full + [c], kept + [c])
  {
    assert (full + [c])[..|full|] == full && (kept + [c])[..|kept|] == kept;
  }

  lemma ThinsDrop(full: seq<Cell>, kept: seq<Cell>, c: Cell)
    requires Thins(full, kept) && c.place.Plain?
    ensures Thins(full + [c], kept)
  {
    assert (full + [c])[..|full|] == full;
  }

  lemma {:induction false} ThinsConcat(a: seq<Cell>, b: seq<Cell>, more: seq<Cell>, kept: seq<Cell>)
    requires Thins(a, b) && Thins(more, kept)
    ensures Thins(a + more, b + kept)
    decreases |more|
  {
    if more == [] {
      assert a + more == a && b + kept == b;
    } else {
      var front, last := more[..|more| - 1], more[|more| - 1];
      assert a + more == (a + front) + [last];
      if kept != [] && kept[|kept| - 1] == last && Thins(front, kept[..|kept| - 1]) {
        ThinsConcat(a, b, front, kept[..|kept| - 1]);
        ThinsBoth(a + front, b + kept[..|kept| - 1], last);
        assert b + kept == (b + kept[..|kept| - 1]) + [last];
      } else {
        ThinsConcat(a, b, front, kept);
        ThinsDrop(a + front, b + kept, last);
      }
    }
  }

  lemma {:induction false} ThinsItself(cells: seq<Cell>)
    ensures Thins(cells, cells)
  {
    if cells != [] {
      ThinsItself(cells[..|cells| - 1]);
    }
  }

  lemma {:induction false} ThinsAway(cells: seq<Cell>)
    requires AllPlain(cells)
    ensures Thins(cells, [])
  {
    if cells != [] {
      ThinsAway(cells[..|cells| - 1]);
    }
  }

  lemma {:induction false} ThinsTwice(a: seq<Cell>, b: seq<Cell>, c: seq<Cell>)
    requires Thins(a, b) && Thins(b, c)
    ensures Thins(a, c)
    decreases |a|
  {
    if a != [] {
      var front, last := a[..|a| - 1], a[|a| - 1];
      if b != [] && b[|b| - 1] == last && Thins(front, b[..|b| - 1]) {
        var b' := b[..|b| - 1];
        if c != [] && c[|c| - 1] == last && Thins(b', c[..|c| - 1]) {
          ThinsTwice(front, b', c[..|c| - 1]);
        } else {
          ThinsTwice(front, b', c);
        }
      } else {
        ThinsTwice(front, b, c);
      }
    }
  }

  // ----- The pass thins -----

  lemma {:induction false} TrimmingThins(out: seq<Cell>)
    requires Settled(out)
    ensures Thins(out, TrimmedCells(out))
  {
    if out != [] && Blank(out[|out| - 1].ch) {
      TrimmingThins(out[..|out| - 1]);
    } else {
      ThinsItself(out);
    }
  }

  /** A link, with the gap before it, is plain SQL in the source. */
  lemma {:induction false} LinkCells(s: string, k: nat) returns (cells: seq<Cell>)
    requires k <= |s| && forall i :: 0 <= i < k ==> Gap(s[i]) || NameChar(s[i]) || s[i] == '@'
    ensures AllPlain(cells) && Cells(Normal, s) == cells + Cells(Normal, s[k..])
    decreases k
  {
    if k == 0 {
      cells := [];
      assert s[0..] == s && [] + Cells(Normal, s) == Cells(Normal, s);
    } else {
      assert Then(Normal, s) == Normal;
      assert s[1..][k - 1..] == s[k..];
      var more := LinkCells(s[1..], k - 1);
      cells := CopiedCells(Normal, s) + more;
      Associative(CopiedCells(Normal, s), more, Cells(Normal, s[k..]));
    }
  }

  lemma WholeLink(s: string) returns (cells: seq<Cell>)
    requires s != "" && s[0] == '@'
    ensures AllPlain(cells) && Cells(Normal, s) == cells + Cells(Normal, AfterLink(s[1..]))
  {
    LinkSpan(s[1..]);
    var rest := AfterLink(s[1..]);
    var k := |s| - |rest|;
    assert s[k..] == s[1..][k - 1..] == rest;
    cells := LinkCells(s, k);
  }

  /** What comes out is the source with plain characters left out, and nothing put in. */
  lemma {:induction false} PassThins(m: Mode, out: seq<Cell>, s: string)
    requires m.Normal? ==> Settled(out)
    ensures Thins(out + Cells(m, s), StripCells(m, out, s))
    decreases |s|
  {
    if s == "" {
      assert out + Cells(m, s) == out;
      ThinsItself(out);
    } else if m.Normal? && s[0] == '@' {
      LinkThins(out, s);
      TrimmingKeepsProtected(out);
      PassThins(Normal, TrimmedCells(out), AfterLink(s[1..]));
      ThinsTwice(out + Cells(m, s), TrimmedCells(out) + Cells(Normal, AfterLink(s[1..])), StripCells(m, out, s));
    } else {
      SettledAfterCopy(m, out, s);
      PassThins(Then(m, s), out + CopiedCells(m, s), s[Copied(m, s)..]);
      Associative(out, CopiedCells(m, s), Cells(Then(m, s), s[Copied(m, s)..]));
    }
  }

  lemma LinkThins(out: seq<Cell>, s: string)
    requires s != "" && s[0] == '@' && Settled(out)
    ensures Thins(out + Cells(Normal, s), TrimmedCells(out) + Cells(Normal, AfterLink(s[1..])))
  {
    var link := WholeLink(s);
    var rest, trimmed := Cells(Normal, AfterLink(s[1..])), TrimmedCells(out);
    TrimmingThins(out);
    ThinsAway(link);
    ThinsConcat(out, trimmed, link, []);
    assert trimmed + [] == trimmed;
    ThinsItself(rest);
    ThinsConcat(out + link, trimmed, rest, rest);
    Associative(out, link, rest);
  }

  // ----- Segments stay whole -----

  lemma {:induction false} ThinsOfConcat(a: seq<Cell>, b: seq<Cell>, kept: seq<Cell>)
    returns (x: seq<Cell>, y: seq<Cell>)
    requires Thins(a + b, kept)
    ensures kept == x + y && Thins(a, x) && Thins(b, y)
    decreases |b|
  {
    if b == [] {
      assert a + b == a;
      x, y := kept, [];
    } else {
      var front, last := b[..|b| - 1], b[|b| - 1];
      assert (a + b)[..|a + b| - 1] == a + front && (a + b)[|a + b| - 1] == last;
      if kept != [] && kept[|kept| - 1] == last && Thins(a + front, kept[..|kept| - 1]) {
        x, y := ThinsOfConcat(a, front, kept[..|kept| - 1]);
        ThinsBoth(front, y, last);
        assert b == front + [last] && kept == kept[..|kept| - 1] + [last];
        Associative(x, y, [last]);
        y := y + [last];
      } else {
        x, y := ThinsOfConcat(a, front, kept);
        ThinsDrop(front, y, last);
        assert b == front + [last];
      }
    }
  }

  lemma {:induction false} NothingToThin(cells: seq<Cell>, kept: seq<Cell>)
    requires NonePlain(cells) && Thins(cells, kept)
    ensures kept == cells
  {
    if cells != [] {
      NothingToThin(cells[..|cells| - 1], kept[..|kept| - 1]);
      assert kept == kept[..|kept| - 1] + [kept[|kept| - 1]];
    }
  }

  /** Every stretch of protected text -- a string, a quoted identifier, a comment, or several without plain SQL between
      them -- is one stretch of the output, verbatim, and what stands around it comes from what stood around it. */
  lemma SegmentsStayWhole(s: string, before: seq<Cell>, segment: seq<Cell>, behind: seq<Cell>)
    returns (x: seq<Cell>, y: seq<Cell>)
    requires Cells(Normal, s) == (before + segment) + behind && NonePlain(segment)
    ensures StripCells(Normal, [], s) == (x + segment) + y && Thins(before, x) && Thins(behind, y)
  {
    PassThins(Normal, [], s);
    assert [] + Cells(Normal, s) == Cells(Normal, s);
    var front: seq<Cell>;
    front, y := ThinsOfConcat(before + segment, behind, StripCells(Normal, [], s));
    var kept: seq<Cell>;
    x, kept := ThinsOfConcat(before, segment, front);
    NothingToThin(segment, kept);
  }
}
