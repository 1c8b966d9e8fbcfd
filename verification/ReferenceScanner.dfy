/** From C source text to the references it makes: strip comments, collect by pattern, sort by
    position, keep the first of each. */
module ReferenceScanner {
  import opened Texts
  import opened ProFrame
  import opened CommentStripper

  /** One regular-expression match: where it starts and the ID it captures. */
  datatype Hit = Hit(at: nat, id: string)

  /** The four call patterns, as functions from comment-free text to their matches in text order. */
  datatype Patterns = Patterns(
    dbio: string -> seq<Hit>, biz: string -> seq<Hit>, service: string -> seq<Hit>, batch: string -> seq<Hit>)

  datatype Match = Match(at: nat, ref: Ref)

  function Tagged(kind: Kind, hits: seq<Hit>): (ms: seq<Match>)
    ensures |ms| == |hits| && forall i :: 0 <= i < |hits| ==> ms[i] == Match(hits[i].at, Ref(kind, hits[i].id))
  {
    if hits == [] then [] else [Match(hits[0].at, Ref(kind, hits[0].id))] + Tagged(kind, hits[1..])
  }

  /** Every match in comment-free text, pattern by pattern. */
  function Matches(p: Patterns, cleaned: string): seq<Match> {
    Tagged(Dbio, p.dbio(cleaned)) + Tagged(Biz, p.biz(cleaned)) +
    Tagged(Service, p.service(cleaned)) + Tagged(Batch, p.batch(cleaned))
  }

  /** Insertion in front of the first match that does not start earlier. */
  function Insert(m: Match, ms: seq<Match>): seq<Match> {
    if ms == [] || m.at <= ms[0].at then [m] + ms else [ms[0]] + Insert(m, ms[1..])
  }

  /** The stable sort by position. */
  function SortedByPosition(ms: seq<Match>): seq<Match> {
    if ms == [] then [] else Insert(ms[0], SortedByPosition(ms[1..]))
  }

  function RefsOf(ms: seq<Match>): (refs: seq<Ref>)
    ensures |refs| == |ms| && forall i :: 0 <= i < |ms| ==> refs[i] == ms[i].ref
  {
    if ms == [] then [] else RefsOf(ms[..|ms| - 1]) + [ms[|ms| - 1].ref]
  }

  function ModuleRefs(p: Patterns, text: string): seq<Ref> {
    Dedupe(RefsOf(SortedByPosition(Matches(p, Scan(Normal, text).text))))
  }

  /** The inner loop: append one pattern's matches. */
  method Collect(matches: seq<Match>, kind: Kind, hits: seq<Hit>) returns (more: seq<Match>)
    ensures more == matches + Tagged(kind, hits)
  {
    more := matches;
    assert hits[0..] == hits;
    for j := 0 to |hits|
      invariant more + Tagged(kind, hits[j..]) == matches + Tagged(kind, hits)
    {
      assert hits[j..][0] == hits[j] && hits[j..][1..] == hits[j + 1..];
      var m := Match(hits[j].at, Ref(kind, hits[j].id));
      Associative(more, [m], Tagged(kind, hits[j + 1..]));
      more := more + [m];
    }
    assert more + [] == more;
  }

  /** The closing loop: keep the first of each reference. */
  method KeepFirst(matches: seq<Match>) returns (refs: seq<Ref>)
    ensures refs == Dedupe(RefsOf(matches))
  {
    refs := [];
    var seen: set<Ref> := {};
    for i := 0 to |matches|
      invariant refs == Dedupe(RefsOf(matches[..i]))
      invariant forall r :: r in seen <==> r in refs
    {
      var key := matches[i].ref;
      assert matches[..i + 1][..i] == matches[..i];
      DedupeSnoc(RefsOf(matches[..i]), key);
      if key in seen {
        continue;
      }
      seen := seen + {key};
      refs := refs + [key];
    }
    assert matches[..|matches|] == matches;
  }

  method ScanModuleRefs(p: Patterns, text: string) returns (refs: seq<Ref>)
    ensures refs == ModuleRefs(p, text)
  {
    var cleaned, _ := StripComments(text);
    var matches := Collect([], Dbio, p.dbio(cleaned));
    assert matches == Tagged(Dbio, p.dbio(cleaned));
    matches := Collect(matches, Biz, p.biz(cleaned));
    matches := Collect(matches, Service, p.service(cleaned));
    matches := Collect(matches, Batch, p.batch(cleaned));
    matches := SortedByPosition(matches);
    refs := KeepFirst(matches);
  }

  /** Scanning a text and scanning it with its comments removed give the same references. */
  lemma CommentsDoNotMatter(p: Patterns, text: string)
    ensures ModuleRefs(p, Scan(Normal, text).text) == ModuleRefs(p, text)
  {
    SecondPassKeepsAll(Normal, text);
  }

  // ----- Order -----

  function Rank(k: Kind): nat {
    match k case Dbio => 0 case Biz => 1 case Service => 2 case Batch => 3
  }

  /** `a` comes no later than `b`: by position, and at one position by pattern. */
  predicate NoLater(a: Match, b: Match) {
    a.at < b.at || (a.at == b.at && Rank(a.ref.kind) <= Rank(b.ref.kind))
  }

  ghost predicate InOrder(ms: seq<Match>) {
    forall i, j :: 0 <= i < j < |ms| ==> NoLater(ms[i], ms[j])
  }

  ghost predicate ByRank(ms: seq<Match>) {
    forall i, j :: 0 <= i < j < |ms| ==> Rank(ms[i].ref.kind) <= Rank(ms[j].ref.kind)
  }

  lemma SameMembers<T(!new)>(a: seq<T>, b: seq<T>)
    requires multiset(a) == multiset(b)
    ensures forall x :: x in a <==> x in b
  {
    forall x ensures x in a <==> x in b {
      assert x in a <==> x in multiset(a);
    }
  }

  lemma {:induction false} InsertKeepsOrder(m: Match, ms: seq<Match>)
    requires InOrder(ms) && forall x :: x in ms ==> Rank(m.ref.kind) <= Rank(x.ref.kind)
    ensures InOrder(Insert(m, ms)) && multiset(Insert(m, ms)) == multiset(ms) + multiset{m}
  {
    if ms != [] && ms[0].at < m.at {
      var rest := Insert(m, ms[1..]);
      InsertKeepsOrder(m, ms[1..]);
      assert ms == [ms[0]] + ms[1..];
      forall x | x in rest ensures NoLater(ms[0], x) {
        assert x in multiset(rest);
        if x != m {
          assert x in ms[1..];
        }
      }
      OrderAhead(ms[0], rest);
    } else {
      forall x | x in ms ensures NoLater(m, x) {
        assert ms[0] == x || NoLater(ms[0], x);
      }
      OrderAhead(m, ms);
    }
  }

  lemma OrderAhead(m: Match, ms: seq<Match>)
    requires InOrder(ms) && forall x :: x in ms ==> NoLater(m, x)
    ensures InOrder([m] + ms)
  {
    assert forall j :: 0 < j <= |ms| ==> ([m] + ms)[j] == ms[j - 1] && ms[j - 1] in ms;
  }

  /** The sort is stable and loses nothing: starting from pattern order it ends in position order,
      ties staying in pattern order. */
  lemma {:induction false} SortIsStable(ms: seq<Match>)
    requires ByRank(ms)
    ensures InOrder(SortedByPosition(ms)) && multiset(SortedByPosition(ms)) == multiset(ms)
  {
    if ms != [] {
      SortIsStable(ms[1..]);
      var rest := SortedByPosition(ms[1..]);
      SameMembers(rest, ms[1..]);
      InsertKeepsOrder(ms[0], rest);
      assert ms == [ms[0]] + ms[1..];
    }
  }

  lemma MatchesByRank(p: Patterns, cleaned: string)
    ensures ByRank(Matches(p, cleaned))
  {
  }

  /** References come out once each, ordered by where they first occur in the comment-free text. */
  lemma RefsInTextOrder(p: Patterns, text: string, i: nat, j: nat) returns (first: Match)
    requires i < j < |ModuleRefs(p, text)|
    ensures var refs, ms := ModuleRefs(p, text), Matches(p, Scan(Normal, text).text);
            && refs[i] != refs[j] && first in ms && first.ref == refs[i]
            && (forall m :: m in ms && m.ref == refs[j] ==> NoLater(first, m))
  {
    var ms := Matches(p, Scan(Normal, text).text);
    var sorted := SortedByPosition(ms);
    MatchesByRank(p, Scan(Normal, text).text);
    SortIsStable(ms);
    DedupeHasNoRepeats(RefsOf(sorted));
    SameMembers(sorted, ms);
    var k := DedupeKeepsOrder(RefsOf(sorted), i, j);
    first := sorted[k];
    assert first in sorted;
    forall m | m in ms && m.ref == ModuleRefs(p, text)[j] ensures NoLater(first, m) {
      var l :| 0 <= l < |sorted| && sorted[l] == m;
      assert RefsOf(sorted)[l] == m.ref;
    }
  }

  /** What the pattern of a kind finds. */
  function HitsOf(p: Patterns, kind: Kind, cleaned: string): seq<Hit> {
    match kind
    case Dbio => p.dbio(cleaned)
    case Biz => p.biz(cleaned)
    case Service => p.service(cleaned)
    case Batch => p.batch(cleaned)
  }

  lemma MatchesAreHits(p: Patterns, cleaned: string, m: Match)
    ensures m in Matches(p, cleaned) <==> Hit(m.at, m.ref.id) in HitsOf(p, m.ref.kind, cleaned)
  {
    var a, b := Tagged(Dbio, p.dbio(cleaned)), Tagged(Biz, p.biz(cleaned));
    var c, d := Tagged(Service, p.service(cleaned)), Tagged(Batch, p.batch(cleaned));
    TaggedHits(Dbio, p.dbio(cleaned), m);
    TaggedHits(Biz, p.biz(cleaned), m);
    TaggedHits(Service, p.service(cleaned), m);
    TaggedHits(Batch, p.batch(cleaned), m);
    assert m in a + b + c + d <==> m in a || m in b || m in c || m in d;
  }

  lemma TaggedHits(kind: Kind, hits: seq<Hit>, m: Match)
    ensures m in Tagged(kind, hits) <==> m.ref.kind == kind && Hit(m.at, m.ref.id) in hits
  {
    var ms := Tagged(kind, hits);
    if m.ref.kind == kind && Hit(m.at, m.ref.id) in hits {
      var i :| 0 <= i < |hits| && hits[i] == Hit(m.at, m.ref.id);
      assert ms[i] == m;
    }
    if m in ms {
      var i :| 0 <= i < |ms| && ms[i] == m;
      assert hits[i] == Hit(m.at, m.ref.id);
    }
  }

  /** A reference is reported exactly when the pattern of its own kind finds its ID in the comment-free text. */
  lemma RefsAreTheHits(p: Patterns, text: string, r: Ref)
    ensures var cleaned := Scan(Normal, text).text;
            r in ModuleRefs(p, text) <==>
            match r.kind
            case Dbio => exists at :: Hit(at, r.id) in p.dbio(cleaned)
            case Biz => exists at :: Hit(at, r.id) in p.biz(cleaned)
            case Service => exists at :: Hit(at, r.id) in p.service(cleaned)
            case Batch => exists at :: Hit(at, r.id) in p.batch(cleaned)
  {
    var cleaned := Scan(Normal, text).text;
    RefsAreTheMatches(p, text, r);
    if m :| m in Matches(p, cleaned) && m.ref == r {
      MatchesAreHits(p, cleaned, m);
    }
    if at :| Hit(at, r.id) in HitsOf(p, r.kind, cleaned) {
      MatchesAreHits(p, cleaned, Match(at, r));
    }
  }

  /** References are listed by where they are first found; at one place a DBIO comes before a biz, a biz before a
      service and a service before a batch. */
  lemma RefsInHitOrder(p: Patterns, text: string, i: nat, j: nat) returns (first: nat)
    requires i < j < |ModuleRefs(p, text)|
    ensures var cleaned, a, b := Scan(Normal, text).text, ModuleRefs(p, text)[i], ModuleRefs(p, text)[j];
            && a != b && Hit(first, a.id) in HitsOf(p, a.kind, cleaned)
            && forall at :: Hit(at, b.id) in HitsOf(p, b.kind, cleaned) ==>
                 first < at || (first == at && (a.kind == b.kind || a.kind.Dbio? || b.kind.Batch?
                                                || (a.kind.Biz? && b.kind.Service?)))
  {
    var cleaned, b := Scan(Normal, text).text, ModuleRefs(p, text)[j];
    var m := RefsInTextOrder(p, text, i, j);
    MatchesAreHits(p, cleaned, m);
    first := m.at;
    forall at | Hit(at, b.id) in HitsOf(p, b.kind, cleaned)
      ensures NoLater(m, Match(at, b))
    {
      MatchesAreHits(p, cleaned, Match(at, b));
    }
  }

  /** A reference is reported exactly when its kind's pattern matches it outside comments. */
  lemma RefsAreTheMatches(p: Patterns, text: string, r: Ref)
    ensures r in ModuleRefs(p, text) <==> exists m :: m in Matches(p, Scan(Normal, text).text) && m.ref == r
  {
    var ms := Matches(p, Scan(Normal, text).text);
    var sorted := SortedByPosition(ms);
    MatchesByRank(p, Scan(Normal, text).text);
    SortIsStable(ms);
    SameMembers(sorted, ms);
    assert r in ModuleRefs(p, text) <==> r in Elements(RefsOf(sorted));
    if r in RefsOf(sorted) {
      var i :| 0 <= i < |sorted| && RefsOf(sorted)[i] == r;
      assert sorted[i] in sorted;
    }
    if m :| m in ms && m.ref == r {
      var i :| 0 <= i < |sorted| && sorted[i] == m;
      assert RefsOf(sorted)[i] == r;
    }
  }
}
