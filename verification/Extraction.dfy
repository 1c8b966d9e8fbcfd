/** Forward extraction: from one module, follow references depth first and add up DBIO tables. */
module Extraction {
  import opened Texts
  import opened ProFrame

  /** What looking a module up and scanning its text yields: its references in order, or a failure. */
  datatype Source = Found(refs: seq<Ref>) | Unreadable(error: Failure)

  /** The remote file tree as the extraction sees it.
      `placed` answers a lookup whose business group is known, `searched` one that has to search
      all groups, `dbios` the table extraction of a DBIO; an absent key is a missing file. */
  datatype Corpus = Corpus(
    placed: map<(Ref, string), Source>,
    searched: map<Ref, Source>,
    dbios: map<string, Result<set<string>>>)

  function Read(c: Corpus, n: Ref, group: Option<string>): Source {
    match group
    case Some(g) => if (n, g) in c.placed then c.placed[(n, g)] else Unreadable(NotFound)
    case None => if n in c.searched then c.searched[n] else Unreadable(NotFound)
  }

  function Refs(s: Source): seq<Ref> {
    if s.Found? then s.refs else []
  }

  function TablesOfDbio(c: Corpus, id: string): Result<set<string>> {
    if id in c.dbios then c.dbios[id] else Failed(NotFound)
  }

  /** Every ID that occurs in some source of the corpus: the bound that makes the recursion end. */
  function Universe(c: Corpus): set<string> {
    (set n, r | n in c.searched && r in Refs(c.searched[n]) :: r.id) +
    (set k, r | k in c.placed && r in Refs(c.placed[k]) :: r.id)
  }

  /** Reference `b` is followed from `a`, met as a reference: `a` is a service or biz, not excluded, whose source is
      found by searching, and `b` stands in it. */
  ghost predicate Follows(c: Corpus, excluded: set<string>, a: Ref, b: Ref) {
    && (a.kind.Service? || a.kind.Biz?) && a.id !in excluded
    && a in c.searched && c.searched[a].Found? && b in c.searched[a].refs
  }

  /** The references followed out of a module that was met as a reference. */
  function Children(c: Corpus, excluded: set<string>, r: Ref): (refs: seq<Ref>)
    ensures Ids(refs) <= Universe(c)
    ensures forall b :: b in refs <==> Follows(c, excluded, r, b)
  {
    if r.id in excluded || r.kind.Dbio? || r.kind.Batch? then [] else Refs(Read(c, r, None))
  }

  /** The references met for the first time, in the order the depth-first search meets them. */
  function Preorder(c: Corpus, excluded: set<string>, refs: seq<Ref>, visited: set<string>): (order: seq<Ref>)
    requires Ids(refs) <= Universe(c)
    ensures Ids(order) !! visited
    ensures Ids(order) <= Universe(c)
    ensures DistinctIds(order)
    decreases Universe(c) - visited, |refs|
  {
    if refs == [] then []
    else
      var r, rest := refs[0], refs[1..];
      assert r in refs && Ids(rest) <= Ids(refs);
      if r.id in visited then Preorder(c, excluded, rest, visited)
      else
        assert r.id in Ids(refs);
        var inner := Preorder(c, excluded, Children(c, excluded, r), visited + {r.id});
        var later := Preorder(c, excluded, rest, visited + {r.id} + Ids(inner));
        OrderPieces(r, inner, later, visited);
        [r] + inner + later
  }

  lemma OrderPieces(r: Ref, inner: seq<Ref>, later: seq<Ref>, visited: set<string>)
    requires r.id !in visited
    requires Ids(inner) !! visited + {r.id} && DistinctIds(inner)
    requires Ids(later) !! visited + {r.id} + Ids(inner) && DistinctIds(later)
    ensures Ids([r] + inner + later) == {r.id} + Ids(inner) + Ids(later)
    ensures DistinctIds([r] + inner + later)
  {
    IdsOfConcat([r] + inner, later);
    IdsOfConcat([r], inner);
    assert Ids([r]) == {r.id};
    var all := [r] + inner + later;
    forall i, j | 0 <= i < j < |all| ensures all[i].id != all[j].id {
      assert forall k :: 0 <= k < |inner| ==> inner[k] in inner && inner[k].id in Ids(inner);
      assert forall k :: 0 <= k < |later| ==> later[k] in later && later[k].id in Ids(later);
    }
  }

  // ----- Reachability -----

  /** `p` leads from one of the entry's own references `start` along followed references; it
      does not continue through the entry again (LoopsAddNothing shows that this loses nothing). */
  ghost predicate Walk(c: Corpus, excluded: set<string>, entry: Ref, start: seq<Ref>, p: seq<Ref>) {
    && p != []
    && p[0] in start
    && (forall i :: 0 <= i < |p| - 1 ==> p[i] != entry && Follows(c, excluded, p[i], p[i + 1]))
  }

  ghost predicate Reached(c: Corpus, excluded: set<string>, entry: Ref, start: seq<Ref>, r: Ref) {
    exists p :: Walk(c, excluded, entry, start, p) && p[|p| - 1] == r
  }

  /** Everything the search meets is reached by a walk. */
  lemma {:induction false} MetIsReached(
    c: Corpus, excluded: set<string>, entry: Ref, refs: seq<Ref>, visited: set<string>, x: Ref)
    requires Ids(refs) <= Universe(c) && entry.id in visited
    requires x in Preorder(c, excluded, refs, visited)
    ensures Reached(c, excluded, entry, refs, x)
    decreases Universe(c) - visited, |refs|
  {
    var r, rest := refs[0], refs[1..];
    assert r in refs && Ids(rest) <= Ids(refs);
    if r.id in visited {
      MetIsReached(c, excluded, entry, rest, visited, x);
      StartGrows(c, excluded, entry, rest, refs, x);
    } else {
      var inner := Preorder(c, excluded, Children(c, excluded, r), visited + {r.id});
      var later := Preorder(c, excluded, rest, visited + {r.id} + Ids(inner));
      assert Preorder(c, excluded, refs, visited) == [r] + inner + later;
      if x == r {
        assert Walk(c, excluded, entry, refs, [r]) && [r][|[r]| - 1] == x;
      } else if x in inner {
        MetIsReached(c, excluded, entry, Children(c, excluded, r), visited + {r.id}, x);
        WalkGrows(c, excluded, entry, refs, r, x);
      } else {
        MetIsReached(c, excluded, entry, rest, visited + {r.id} + Ids(inner), x);
        StartGrows(c, excluded, entry, rest, refs, x);
      }
    }
  }

  lemma WalkGrows(c: Corpus, excluded: set<string>, entry: Ref, start: seq<Ref>, r: Ref, x: Ref)
    requires r in start && r != entry && Reached(c, excluded, entry, Children(c, excluded, r), x)
    ensures Reached(c, excluded, entry, start, x)
  {
    var p :| Walk(c, excluded, entry, Children(c, excluded, r), p) && p[|p| - 1] == x;
    var q := [r] + p;
    assert forall i :: 0 < i < |q| ==> q[i] == p[i - 1];
    assert Walk(c, excluded, entry, start, q) && q[|q| - 1] == x;
  }

  lemma StartGrows(c: Corpus, excluded: set<string>, entry: Ref, a: seq<Ref>, b: seq<Ref>, x: Ref)
    requires Reached(c, excluded, entry, a, x) && forall r :: r in a ==> r in b
    ensures Reached(c, excluded, entry, b, x)
  {
    var p :| Walk(c, excluded, entry, a, p) && p[|p| - 1] == x;
    assert Walk(c, excluded, entry, b, p);
  }

  /** No grey node is left behind: what the search met, and what it started from, has only
      references whose IDs are visited when it returns. */
  lemma {:induction false} MetIsClosed(c: Corpus, excluded: set<string>, refs: seq<Ref>, visited: set<string>)
    requires Ids(refs) <= Universe(c)
    ensures var seen := visited + Ids(Preorder(c, excluded, refs, visited));
            && Ids(refs) <= seen
            && forall x :: x in Preorder(c, excluded, refs, visited) ==> Ids(Children(c, excluded, x)) <= seen
    decreases Universe(c) - visited, |refs|
  {
    if refs != [] {
      var r, rest := refs[0], refs[1..];
      assert refs == [r] + rest;
      IdsOfConcat([r], rest);
      assert Ids([r]) == {r.id};
      if r.id in visited {
        MetIsClosed(c, excluded, rest, visited);
      } else {
        var inner := Preorder(c, excluded, Children(c, excluded, r), visited + {r.id});
        var later := Preorder(c, excluded, rest, visited + {r.id} + Ids(inner));
        MetIsClosed(c, excluded, Children(c, excluded, r), visited + {r.id});
        MetIsClosed(c, excluded, rest, visited + {r.id} + Ids(inner));
        OrderPieces(r, inner, later, visited);
      }
    }
  }

  /** Earlier references are followed first, with everything they lead to; later ones meet what is left. */
  lemma {:induction false} EarlierReferencesFirst(
    c: Corpus, excluded: set<string>, a: seq<Ref>, b: seq<Ref>, visited: set<string>)
    requires Ids(a) <= Universe(c) && Ids(b) <= Universe(c)
    ensures Ids(a + b) <= Universe(c)
    ensures var first := Preorder(c, excluded, a, visited);
            Preorder(c, excluded, a + b, visited) == first + Preorder(c, excluded, b, visited + Ids(first))
    decreases Universe(c) - visited, |a|
  {
    IdsOfConcat(a, b);
    if a == [] {
      assert a + b == b && visited + Ids([]) == visited;
    } else {
      var r, rest := a[0], a[1..];
      assert a == [r] + rest;
      IdsOfConcat([r], rest);
      assert r.id in Ids([r]) && Ids(rest) <= Universe(c);
      assert (a + b)[0] == r && (a + b)[1..] == rest + b;
      if r.id in visited {
        EarlierReferencesFirst(c, excluded, rest, b, visited);
      } else {
        var inner := Preorder(c, excluded, Children(c, excluded, r), visited + {r.id});
        var seen := visited + {r.id} + Ids(inner);
        var later := Preorder(c, excluded, rest, seen);
        EarlierReferencesFirst(c, excluded, rest, b, seen);
        OrderPieces(r, inner, later, visited);
        assert seen + Ids(later) == visited + Ids([r] + inner + later);
        Associative([r] + inner, later, Preorder(c, excluded, b, seen + Ids(later)));
      }
    }
  }

  /** A module met comes right before what its own references lead to. */
  lemma ModuleThenItsReferences(c: Corpus, excluded: set<string>, r: Ref, visited: set<string>)
    requires r.id in Universe(c) && r.id !in visited
    ensures Ids([r]) <= Universe(c)
    ensures Preorder(c, excluded, [r], visited) ==
            [r] + Preorder(c, excluded, Children(c, excluded, r), visited + {r.id})
  {
    var inner := Preorder(c, excluded, Children(c, excluded, r), visited + {r.id});
    assert Ids([r]) == {r.id} && [r][1..] == [];
    assert [r] + inner + [] == [r] + inner;
  }

  /** Each ID is used with one kind only, among the references reached from `entry`. */
  ghost predicate OneKindPerId(c: Corpus, excluded: set<string>, entry: Ref, start: seq<Ref>) {
    && (forall r :: Reached(c, excluded, entry, start, r) && r.id == entry.id ==> r == entry)
    && (forall r, s :: Reached(c, excluded, entry, start, r) && Reached(c, excluded, entry, start, s) && r.id == s.id
                       ==> r == s)
  }

  lemma {:induction false} ReachedIsMet(c: Corpus, excluded: set<string>, entry: Ref, start: seq<Ref>, p: seq<Ref>)
    requires Ids(start) <= Universe(c)
    requires OneKindPerId(c, excluded, entry, start)
    requires Walk(c, excluded, entry, start, p)
    ensures p[|p| - 1] == entry || p[|p| - 1] in Preorder(c, excluded, start, {entry.id})
    decreases |p|
  {
    var order := Preorder(c, excluded, start, {entry.id});
    var x := p[|p| - 1];
    MetIsClosed(c, excluded, start, {entry.id});
    assert Reached(c, excluded, entry, start, x);
    if |p| == 1 {
      assert x.id in Ids(start);
    } else {
      var q := p[..|p| - 1];
      assert Walk(c, excluded, entry, start, q);
      ReachedIsMet(c, excluded, entry, start, q);
      var y := q[|q| - 1];
      assert y == p[|p| - 2] && Follows(c, excluded, p[|p| - 2], p[|p| - 2 + 1]);
      assert x.id in Ids(Children(c, excluded, y));
    }
    if x.id != entry.id {
      var z := IdBelongsToARef(order, x.id);
      MetIsReached(c, excluded, entry, start, {entry.id}, z);
    }
  }

  lemma AllMetAreReached(c: Corpus, excluded: set<string>, entry: Ref, start: seq<Ref>)
    requires Ids(start) <= Universe(c)
    ensures forall r :: r in Preorder(c, excluded, start, {entry.id}) ==>
                        Reached(c, excluded, entry, start, r) && r.id != entry.id
  {
    var order := Preorder(c, excluded, start, {entry.id});
    forall r | r in order ensures Reached(c, excluded, entry, start, r) && r.id != entry.id {
      MetIsReached(c, excluded, entry, start, {entry.id}, r);
      assert r.id in Ids(order);
    }
  }

  lemma AllReachedAreMet(c: Corpus, excluded: set<string>, entry: Ref, start: seq<Ref>)
    requires Ids(start) <= Universe(c) && OneKindPerId(c, excluded, entry, start)
    ensures forall r :: Reached(c, excluded, entry, start, r) ==>
                        r == entry || r in Preorder(c, excluded, start, {entry.id})
  {
    forall r | Reached(c, excluded, entry, start, r)
      ensures r == entry || r in Preorder(c, excluded, start, {entry.id})
    {
      var p :| Walk(c, excluded, entry, start, p) && p[|p| - 1] == r;
      ReachedIsMet(c, excluded, entry, start, p);
    }
  }

  lemma MetHaveOneKind(c: Corpus, excluded: set<string>, entry: Ref, start: seq<Ref>, order: seq<Ref>)
    requires DistinctIds(order) && forall r :: r in order ==> r.id != entry.id
    requires forall r :: Reached(c, excluded, entry, start, r) ==> r == entry || r in order
    ensures OneKindPerId(c, excluded, entry, start)
  {
  }

  /** The search meets exactly the reached references -- precisely when no ID is reached under two kinds. */
  lemma ExactReachability(c: Corpus, excluded: set<string>, entry: Ref, start: seq<Ref>)
    requires Ids(start) <= Universe(c)
    ensures OneKindPerId(c, excluded, entry, start) <==>
            forall r :: Reached(c, excluded, entry, start, r) ==>
                        r == entry || r in Preorder(c, excluded, start, {entry.id})
    ensures forall r :: r in Preorder(c, excluded, start, {entry.id}) ==>
                        Reached(c, excluded, entry, start, r) && r.id != entry.id
  {
    var order := Preorder(c, excluded, start, {entry.id});
    AllMetAreReached(c, excluded, entry, start);
    if OneKindPerId(c, excluded, entry, start) {
      AllReachedAreMet(c, excluded, entry, start);
    } else if forall r :: Reached(c, excluded, entry, start, r) ==> r == entry || r in order {
      MetHaveOneKind(c, excluded, entry, start, order);
    }
  }

  /** `p` with the restriction on the entry dropped. */
  ghost predicate FreeWalk(c: Corpus, excluded: set<string>, start: seq<Ref>, p: seq<Ref>) {
    && p != []
    && p[0] in start
    && (forall i :: 0 <= i < |p| - 1 ==> Follows(c, excluded, p[i], p[i + 1]))
  }

  /** Walks that come back to the entry and go on reach nothing new. */
  lemma {:induction false} LoopsAddNothing(
    c: Corpus, excluded: set<string>, entry: Ref, start: seq<Ref>, p: seq<Ref>)
    requires FreeWalk(c, excluded, start, p)
    requires forall r :: Follows(c, excluded, entry, r) ==> r in start
    ensures Reached(c, excluded, entry, start, p[|p| - 1])
    decreases |p|
  {
    if i :| 0 <= i < |p| - 1 && p[i] == entry {
      var q := p[i + 1..];
      assert q[0] == p[i + 1];
      assert forall k :: 0 <= k < |q| ==> q[k] == p[i + 1 + k];
      LoopsAddNothing(c, excluded, entry, start, q);
    } else {
      assert Walk(c, excluded, entry, start, p);
    }
  }

  // ----- What one run adds up -----

  datatype ExtractResult = ExtractResult(
    tables: seq<string>, dbios: seq<string>, batches: seq<string>, services: seq<string>, bizs: seq<string>)

  /** The accumulators of a run, and the source lookups it makes for the references it meets. */
  datatype Totals = Totals(
    tables: set<string>, dbios: seq<string>, batches: set<string>, services: set<string>, bizs: set<string>,
    lookups: seq<Ref>)

  const NOTHING := Totals({}, [], {}, {}, {}, [])

  function Plus(a: Totals, b: Totals): Totals {
    Totals(a.tables + b.tables, a.dbios + b.dbios, a.batches + b.batches, a.services + b.services, a.bizs + b.bizs,
           a.lookups + b.lookups)
  }

  /** A module whose source was read records itself. */
  function Self(n: Ref): Totals {
    NOTHING.(services := if n.kind.Service? then {n.id} else {}, bizs := if n.kind.Biz? then {n.id} else {})
  }

  /** What meeting one reference contributes, apart from the references it leads to. */
  function One(c: Corpus, excluded: set<string>, r: Ref): Totals {
    if r.id in excluded then NOTHING
    else match r.kind
      case Batch => NOTHING.(batches := {r.id})
      case Dbio =>
        if TablesOfDbio(c, r.id).Success? then NOTHING.(tables := TablesOfDbio(c, r.id).value, dbios := [r.id])
        else NOTHING
      case _ => (if Read(c, r, None).Found? then Self(r) else NOTHING).(lookups := [r])
  }

  /** Everything the extraction of one module adds up, given the references it met. */
  function Visit(n: Ref, source: Source, below: Totals): Totals {
    if source.Found? then Plus(Self(n).(lookups := [n]), below) else NOTHING.(lookups := [n])
  }

  function Sum(c: Corpus, excluded: set<string>, order: seq<Ref>): Totals {
    if order == [] then NOTHING else Plus(One(c, excluded, order[0]), Sum(c, excluded, order[1..]))
  }

  lemma {:induction false} SumOfConcat(c: Corpus, excluded: set<string>, a: seq<Ref>, b: seq<Ref>)
    ensures Sum(c, excluded, a + b) == Plus(Sum(c, excluded, a), Sum(c, excluded, b))
  {
    if a == [] {
      assert a + b == b;
    } else {
      assert (a + b)[1..] == a[1..] + b;
      SumOfConcat(c, excluded, a[1..], b);
      PlusAssociative(One(c, excluded, a[0]), Sum(c, excluded, a[1..]), Sum(c, excluded, b));
    }
  }

  lemma PlusAssociative(x: Totals, y: Totals, z: Totals)
    ensures Plus(Plus(x, y), z) == Plus(x, Plus(y, z))
  {
  }

  /** `r` lists the totals `t`. */
  ghost predicate Reports(r: ExtractResult, t: Totals) {
    && Elements(r.tables) == t.tables && r.dbios == t.dbios && Elements(r.batches) == t.batches
    && Elements(r.services) == t.services && Elements(r.bizs) == t.bizs
  }

  lemma VisitAdds(n: Ref, refs: seq<Ref>, below: Totals)
    ensures Visit(n, Found(refs), below) ==
            Totals(below.tables, below.dbios, below.batches, Self(n).services + below.services,
                   Self(n).bizs + below.bizs, [n] + below.lookups)
  {
  }

  lemma PlusNothing(x: Totals)
    ensures Plus(x, NOTHING) == x && Plus(NOTHING, x) == x
  {
  }

  function Report(t: Totals): (r: ExtractResult)
    ensures Reports(r, t)
  {
    ExtractResult(SortedTexts(t.tables), t.dbios, SortedTexts(t.batches), SortedTexts(t.services), SortedTexts(t.bizs))
  }

  /** Every list but the DBIOs is in ascending order, each entry once. */
  ghost predicate ListsAscend(r: ExtractResult) {
    && Ascending(r.tables, LexLe) && Ascending(r.batches, LexLe)
    && Ascending(r.services, LexLe) && Ascending(r.bizs, LexLe)
  }

  lemma ReportAscends(t: Totals)
    ensures ListsAscend(Report(t))
  {
  }

  lemma NothingMet(c: Corpus, excluded: set<string>)
    ensures Sum(c, excluded, []) == NOTHING && Ids([]) == {}
  {
  }

  predicate ReadableDbio(c: Corpus, excluded: set<string>, r: Ref) {
    r.kind.Dbio? && r.id !in excluded && TablesOfDbio(c, r.id).Success?
  }

  predicate ReadableModule(c: Corpus, excluded: set<string>, r: Ref) {
    (r.kind.Service? || r.kind.Biz?) && r.id !in excluded && Read(c, r, None).Found?
  }

  function DbioTest(c: Corpus, excluded: set<string>): Ref -> bool {
    r => ReadableDbio(c, excluded, r)
  }

  function LookupTest(excluded: set<string>): Ref -> bool {
    (r: Ref) => r.id !in excluded && (r.kind.Service? || r.kind.Biz?)
  }

  function IdList(refs: seq<Ref>): (ids: seq<string>)
    ensures |ids| == |refs| && forall i :: 0 <= i < |refs| ==> ids[i] == refs[i].id
  {
    if refs == [] then [] else [refs[0].id] + IdList(refs[1..])
  }

  /** The listed DBIOs are what the search met, filtered. */
  lemma {:induction false} DbiosAreFiltered(c: Corpus, excluded: set<string>, order: seq<Ref>)
    ensures Sum(c, excluded, order).dbios == IdList(Filter(order, DbioTest(c, excluded)))
  {
    if order != [] {
      DbiosAreFiltered(c, excluded, order[1..]);
      IdListOfCons(order[0], Filter(order[1..], DbioTest(c, excluded)));
      assert One(c, excluded, order[0]).dbios == if DbioTest(c, excluded)(order[0]) then [order[0].id] else [];
    }
  }

  lemma IdListOfCons(r: Ref, rest: seq<Ref>)
    ensures IdList([r] + rest) == [r.id] + IdList(rest)
  {
    assert ([r] + rest)[1..] == rest;
  }

  /** So are the source lookups. */
  lemma {:induction false} LookupsAreFiltered(c: Corpus, excluded: set<string>, order: seq<Ref>)
    ensures Sum(c, excluded, order).lookups == Filter(order, LookupTest(excluded))
  {
    if order != [] {
      LookupsAreFiltered(c, excluded, order[1..]);
      assert One(c, excluded, order[0]).lookups == if LookupTest(excluded)(order[0]) then [order[0]] else [];
    }
  }

  predicate UsesTable(c: Corpus, d: string, table: string) {
    TablesOfDbio(c, d).Success? && table in TablesOfDbio(c, d).value
  }

  /** The tables are those of the listed DBIOs. */
  ghost predicate Covers(c: Corpus, t: Totals) {
    forall x :: x in t.tables <==> exists d :: d in t.dbios && UsesTable(c, d, x)
  }

  lemma CoversBoth(c: Corpus, a: Totals, b: Totals)
    requires Covers(c, a) && Covers(c, b)
    ensures Covers(c, Plus(a, b))
  {
    assert forall d :: d in a.dbios + b.dbios <==> d in a.dbios || d in b.dbios;
  }

  lemma OneCovers(c: Corpus, excluded: set<string>, r: Ref)
    ensures Covers(c, One(c, excluded, r))
  {
    if One(c, excluded, r).dbios == [r.id] {
      assert r.id in One(c, excluded, r).dbios;
    }
  }

  lemma {:induction false} SumCovers(c: Corpus, excluded: set<string>, order: seq<Ref>)
    ensures Covers(c, Sum(c, excluded, order))
  {
    if order != [] {
      OneCovers(c, excluded, order[0]);
      SumCovers(c, excluded, order[1..]);
      CoversBoth(c, One(c, excluded, order[0]), Sum(c, excluded, order[1..]));
    }
  }

  lemma {:induction false} SumModules(c: Corpus, excluded: set<string>, order: seq<Ref>)
    ensures var t := Sum(c, excluded, order);
            && (forall b :: b in t.batches <==> Ref(Batch, b) in order && b !in excluded)
            && (forall s :: s in t.services <==>
                  Ref(Service, s) in order && ReadableModule(c, excluded, Ref(Service, s)))
            && (forall b :: b in t.bizs <==> Ref(Biz, b) in order && ReadableModule(c, excluded, Ref(Biz, b)))
  {
    if order != [] {
      var first, rest := order[0], order[1..];
      SumModules(c, excluded, rest);
      assert order == [first] + rest;
      forall r ensures r in order <==> r == first || r in rest {
      }
      OneModules(c, excluded, first);
    }
  }

  lemma OneModules(c: Corpus, excluded: set<string>, r: Ref)
    ensures var t := One(c, excluded, r);
            && (forall b :: b in t.batches <==> Ref(Batch, b) == r && b !in excluded)
            && (forall s :: s in t.services <==> Ref(Service, s) == r && ReadableModule(c, excluded, r))
            && (forall b :: b in t.bizs <==> Ref(Biz, b) == r && ReadableModule(c, excluded, r))
  {
  }

  // ----- When the report is exact -----

  /** `r` has something to add to the report. */
  predicate Contributes(c: Corpus, excluded: set<string>, r: Ref) {
    match r.kind
    case Dbio => ReadableDbio(c, excluded, r)
    case Batch => r.id !in excluded
    case _ => ReadableModule(c, excluded, r)
  }

  /** The reported lists hold exactly what is reached, readable and not excluded; the entry is reported anyway. */
  ghost predicate Exact(c: Corpus, excluded: set<string>, entry: Ref, start: seq<Ref>, t: Totals) {
    && (forall d :: d in t.dbios <==>
          Reached(c, excluded, entry, start, Ref(Dbio, d)) && ReadableDbio(c, excluded, Ref(Dbio, d)))
    && (forall b :: b in t.batches <==>
          Reached(c, excluded, entry, start, Ref(Batch, b)) && b !in excluded && Ref(Batch, b) != entry)
    && (forall s :: s in t.services <==>
          Ref(Service, s) == entry ||
          (Reached(c, excluded, entry, start, Ref(Service, s)) && ReadableModule(c, excluded, Ref(Service, s))))
    && (forall b :: b in t.bizs <==>
          Ref(Biz, b) == entry ||
          (Reached(c, excluded, entry, start, Ref(Biz, b)) && ReadableModule(c, excluded, Ref(Biz, b))))
  }

  /** Exact reachability, in terms of what a successful run of a service, biz or batch entry reports. */
  lemma ReportIsExact(c: Corpus, excluded: set<string>, entry: Ref, start: seq<Ref>)
    requires !entry.kind.Dbio? && Ids(start) <= Universe(c)
    requires OneKindPerId(c, excluded, entry, start)
    ensures var t := Visit(entry, Found(start), Sum(c, excluded, Preorder(c, excluded, start, {entry.id})));
            Exact(c, excluded, entry, start, t) && Covers(c, t)
  {
    var order := Preorder(c, excluded, start, {entry.id});
    ExactReachability(c, excluded, entry, start);
    SumCovers(c, excluded, order);
    VisitAdds(entry, start, Sum(c, excluded, order));
    MetIsListed(c, excluded, entry, start, order);
  }

  /** No reached reference that has something to add finds its ID taken by another one, met before it under another
      kind. */
  ghost predicate NoneIsTaken(c: Corpus, excluded: set<string>, entry: Ref, start: seq<Ref>, order: seq<Ref>) {
    forall r :: Reached(c, excluded, entry, start, r) && Contributes(c, excluded, r) && r != entry ==>
      forall z :: (z == entry || z in order) && z.id == r.id ==> z == r
  }

  lemma {:induction false} ContributorIsMet(c: Corpus, excluded: set<string>, entry: Ref, start: seq<Ref>, p: seq<Ref>)
    requires Ids(start) <= Universe(c) && Walk(c, excluded, entry, start, p)
    requires NoneIsTaken(c, excluded, entry, start, Preorder(c, excluded, start, {entry.id}))
    requires Contributes(c, excluded, p[|p| - 1]) && p[|p| - 1] != entry
    ensures p[|p| - 1] in Preorder(c, excluded, start, {entry.id})
    decreases |p|
  {
    var order := Preorder(c, excluded, start, {entry.id});
    var x := p[|p| - 1];
    MetIsClosed(c, excluded, start, {entry.id});
    assert Reached(c, excluded, entry, start, x);
    if |p| == 1 {
      assert x.id in Ids(start);
    } else {
      var q, y := p[..|p| - 1], p[|p| - 2];
      assert Follows(c, excluded, y, p[|p| - 2 + 1]);
      assert Walk(c, excluded, entry, start, q) && q[|q| - 1] == y;
      ContributorIsMet(c, excluded, entry, start, q);
      assert x.id in Ids(Children(c, excluded, y));
    }
    if x.id != entry.id {
      var z := IdBelongsToARef(order, x.id);
    }
  }

  lemma ListedIsMet(c: Corpus, excluded: set<string>, entry: Ref, start: seq<Ref>, order: seq<Ref>, r: Ref)
    requires Exact(c, excluded, entry, start, Visit(entry, Found(start), Sum(c, excluded, order)))
    requires Reached(c, excluded, entry, start, r) && Contributes(c, excluded, r) && r != entry
    ensures r in order
  {
    DbioMembers(c, excluded, order);
    SumModules(c, excluded, order);
    VisitAdds(entry, start, Sum(c, excluded, order));
    var t := Visit(entry, Found(start), Sum(c, excluded, order));
    match r.kind {
      case Dbio => assert r.id in t.dbios;
      case Batch => assert r.id in t.batches;
      case Service => assert r.id in t.services;
      case Biz => assert r.id in t.bizs;
    }
  }

  lemma MetIsListed(c: Corpus, excluded: set<string>, entry: Ref, start: seq<Ref>, order: seq<Ref>)
    requires !entry.kind.Dbio?
    requires forall r :: r in order ==> Reached(c, excluded, entry, start, r) && r != entry
    requires forall r :: Reached(c, excluded, entry, start, r) && Contributes(c, excluded, r) ==>
             r == entry || r in order
    ensures Exact(c, excluded, entry, start, Visit(entry, Found(start), Sum(c, excluded, order)))
  {
    var below := Sum(c, excluded, order);
    forall r ensures Lists(below, r) <==>
                     Reached(c, excluded, entry, start, r) && Contributes(c, excluded, r) && r != entry
    {
      ContributorsAreListed(c, excluded, order, r);
    }
    ListsAreExact(c, excluded, entry, start, below);
  }

  predicate Lists(t: Totals, r: Ref) {
    match r.kind
    case Dbio => r.id in t.dbios
    case Batch => r.id in t.batches
    case Service => r.id in t.services
    case Biz => r.id in t.bizs
  }

  lemma ContributorsAreListed(c: Corpus, excluded: set<string>, order: seq<Ref>, r: Ref)
    ensures Lists(Sum(c, excluded, order), r) <==> r in order && Contributes(c, excluded, r)
  {
    assert r == Ref(r.kind, r.id);
    if r.kind.Dbio? {
      DbioMembers(c, excluded, order);
    } else {
      SumModules(c, excluded, order);
    }
  }

  lemma ListsAreExact(c: Corpus, excluded: set<string>, entry: Ref, start: seq<Ref>, below: Totals)
    requires !entry.kind.Dbio?
    requires forall r :: Lists(below, r) <==>
                         Reached(c, excluded, entry, start, r) && Contributes(c, excluded, r) && r != entry
    ensures Exact(c, excluded, entry, start, Visit(entry, Found(start), below))
  {
    VisitAdds(entry, start, below);
    assert forall d :: d in below.dbios <==> Lists(below, Ref(Dbio, d));
    assert forall b :: b in below.batches <==> Lists(below, Ref(Batch, b));
    assert forall s :: s in below.services <==> Lists(below, Ref(Service, s));
    assert forall b :: b in below.bizs <==> Lists(below, Ref(Biz, b));
  }

  /** `n` has to be reported: a service or biz entry itself, and whatever else is reached and contributes. */
  ghost predicate Wanted(c: Corpus, excluded: set<string>, entry: Ref, start: seq<Ref>, n: Ref) {
    if n == entry then !n.kind.Batch? else Reached(c, excluded, entry, start, n) && Contributes(c, excluded, n)
  }

  /** Exactness, one reference at a time. */
  lemma ExactExactly(c: Corpus, excluded: set<string>, entry: Ref, start: seq<Ref>, t: Totals)
    requires !entry.kind.Dbio?
    ensures Exact(c, excluded, entry, start, t) <==> forall n :: Lists(t, n) <==> Wanted(c, excluded, entry, start, n)
  {
    if forall n :: Lists(t, n) <==> Wanted(c, excluded, entry, start, n) {
      assert forall d :: d in t.dbios <==> Lists(t, Ref(Dbio, d));
      assert forall b :: b in t.batches <==> Lists(t, Ref(Batch, b));
      assert forall s :: s in t.services <==> Lists(t, Ref(Service, s));
      assert forall b :: b in t.bizs <==> Lists(t, Ref(Biz, b));
    } else {
      var n :| Lists(t, n) != Wanted(c, excluded, entry, start, n);
      assert n == Ref(n.kind, n.id);
    }
  }

  /** The report is exact precisely when no contributing reference loses its ID; clashes among excluded and unreadable
      references do it no harm. */
  lemma ReportIsExactPrecisely(c: Corpus, excluded: set<string>, entry: Ref, start: seq<Ref>)
    requires !entry.kind.Dbio? && Ids(start) <= Universe(c)
    ensures var order := Preorder(c, excluded, start, {entry.id});
            Exact(c, excluded, entry, start, Visit(entry, Found(start), Sum(c, excluded, order))) <==>
            NoneIsTaken(c, excluded, entry, start, order)
  {
    var order := Preorder(c, excluded, start, {entry.id});
    ExactReachability(c, excluded, entry, start);
    if NoneIsTaken(c, excluded, entry, start, order) {
      forall r | Reached(c, excluded, entry, start, r) && Contributes(c, excluded, r) && r != entry ensures r in order {
        var p :| Walk(c, excluded, entry, start, p) && p[|p| - 1] == r;
        ContributorIsMet(c, excluded, entry, start, p);
      }
      MetIsListed(c, excluded, entry, start, order);
    }
    if Exact(c, excluded, entry, start, Visit(entry, Found(start), Sum(c, excluded, order))) {
      forall r, z | Reached(c, excluded, entry, start, r) && Contributes(c, excluded, r) && r != entry
                    && (z == entry || z in order) && z.id == r.id
        ensures z == r
      {
        ListedIsMet(c, excluded, entry, start, order, r);
      }
    }
  }

  /** It is so when no reached reference that contributes shares its ID with another one. */
  lemma HarmlessClashes(c: Corpus, excluded: set<string>, entry: Ref, start: seq<Ref>)
    requires !entry.kind.Dbio? && Ids(start) <= Universe(c)
    requires forall r :: Reached(c, excluded, entry, start, r) && Contributes(c, excluded, r) ==>
               forall s: Ref :: (s == entry || Reached(c, excluded, entry, start, s)) && s.id == r.id ==> s == r
    ensures Exact(c, excluded, entry, start,
                  Visit(entry, Found(start), Sum(c, excluded, Preorder(c, excluded, start, {entry.id}))))
  {
    ExactReachability(c, excluded, entry, start);
    ReportIsExactPrecisely(c, excluded, entry, start);
  }

  lemma DbioMembers(c: Corpus, excluded: set<string>, order: seq<Ref>)
    ensures var t := Sum(c, excluded, order);
            forall d :: d in t.dbios <==> Ref(Dbio, d) in order && ReadableDbio(c, excluded, Ref(Dbio, d))
  {
    DbiosAreFiltered(c, excluded, order);
    var kept := Filter(order, DbioTest(c, excluded));
    forall d ensures d in IdList(kept) <==> Ref(Dbio, d) in order && ReadableDbio(c, excluded, Ref(Dbio, d)) {
      if d in IdList(kept) {
        var i :| 0 <= i < |kept| && IdList(kept)[i] == d;
        assert kept[i] in kept;
      }
      if Ref(Dbio, d) in order && ReadableDbio(c, excluded, Ref(Dbio, d)) {
        assert Ref(Dbio, d) in kept;
        var i :| 0 <= i < |kept| && kept[i] == Ref(Dbio, d);
        assert IdList(kept)[i] == d;
      }
    }
  }

  /** DBIOs are listed once each, in the order the search met them. */
  lemma DbiosInFirstEncounterOrder(c: Corpus, excluded: set<string>, entry: Ref, start: seq<Ref>, i: nat, j: nat)
    returns (k: nat, m: nat)
    requires Ids(start) <= Universe(c)
    requires i < j < |Sum(c, excluded, Preorder(c, excluded, start, {entry.id})).dbios|
    ensures var order := Preorder(c, excluded, start, {entry.id});
            var dbios := Sum(c, excluded, order).dbios;
            && k < m < |order| && dbios[i] != dbios[j]
            && order[k] == Ref(Dbio, dbios[i]) && order[m] == Ref(Dbio, dbios[j])
  {
    var order := Preorder(c, excluded, start, {entry.id});
    DbiosAreFiltered(c, excluded, order);
    var kept := Filter(order, DbioTest(c, excluded));
    assert kept[i] in kept && kept[j] in kept;
    k, m := FilterKeepsOrder(order, DbioTest(c, excluded), i, j);
  }

  /** Every source is looked up at most once, the entry first, and only services and bizs that are
      not excluded are ever looked up after it. */
  lemma LookupsAreDistinct(c: Corpus, excluded: set<string>, entry: Ref, start: seq<Ref>)
    requires Ids(start) <= Universe(c)
    ensures var order := Preorder(c, excluded, start, {entry.id});
            var lookups := Visit(entry, Found(start), Sum(c, excluded, order)).lookups;
            && lookups != [] && lookups[0] == entry && DistinctIds(lookups)
            && (forall i :: 0 < i < |lookups| ==> LookupTest(excluded)(lookups[i]))
  {
    var order := Preorder(c, excluded, start, {entry.id});
    var below := Filter(order, LookupTest(excluded));
    LookupsAreFiltered(c, excluded, order);
    VisitAdds(entry, start, Sum(c, excluded, order));
    FilteredStayDistinct(order, LookupTest(excluded));
    forall i | 0 <= i < |below| ensures below[i].id != entry.id && LookupTest(excluded)(below[i]) {
      assert below[i] in below && below[i].id in Ids(order);
    }
  }

  lemma FilteredStayDistinct(order: seq<Ref>, keep: Ref -> bool)
    requires DistinctIds(order)
    ensures DistinctIds(Filter(order, keep))
  {
    var kept := Filter(order, keep);
    forall i, j | 0 <= i < j < |kept| ensures kept[i].id != kept[j].id {
      var k, m := FilterKeepsOrder(order, keep, i, j);
    }
  }

  /** One more met reference, with everything met under it. */
  lemma MoreMet(c: Corpus, excluded: set<string>, done: seq<Ref>, r: Ref, inner: seq<Ref>)
    ensures Ids(done + ([r] + inner)) == Ids(done) + {r.id} + Ids(inner)
    ensures Sum(c, excluded, done + ([r] + inner)) ==
            Plus(Sum(c, excluded, done), Plus(One(c, excluded, r), Sum(c, excluded, inner)))
  {
    IdsOfConcat(done, [r] + inner);
    IdsOfConcat([r], inner);
    assert Ids([r]) == {r.id};
    assert ([r] + inner)[1..] == inner;
    SumOfConcat(c, excluded, done, [r] + inner);
  }

  lemma ModuleMet(c: Corpus, excluded: set<string>, r: Ref, visited: set<string>)
    requires r.id !in excluded && (r.kind.Service? || r.kind.Biz?)
    ensures Children(c, excluded, r) == Refs(Read(c, r, None))
    ensures var below := Sum(c, excluded, Preorder(c, excluded, Children(c, excluded, r), visited + {r.id}));
            Plus(One(c, excluded, r), below) == Visit(r, Read(c, r, None), below)
  {
    NothingMet(c, excluded);
  }

  /** What the reference loop keeps true before its turn for `refs[i]`, `done` being what it met so far. */
  ghost predicate LoopState(c: Corpus, excluded: set<string>, refs: seq<Ref>, i: nat,
                            before: set<string>, visited: set<string>, done: seq<Ref>)
    requires i <= |refs|
  {
    && Ids(refs) <= Universe(c) && Ids(refs[i..]) <= Universe(c)
    && visited == before + Ids(done)
    && Preorder(c, excluded, refs, before) == done + Preorder(c, excluded, refs[i..], visited)
  }

  lemma LoopStarts(c: Corpus, excluded: set<string>, refs: seq<Ref>, before: set<string>)
    requires Ids(refs) <= Universe(c)
    ensures LoopState(c, excluded, refs, 0, before, before, []) && Sum(c, excluded, []) == NOTHING
  {
    NothingMet(c, excluded);
    assert refs[0..] == refs;
  }

  lemma LoopEnds(c: Corpus, excluded: set<string>, refs: seq<Ref>,
                 before: set<string>, visited: set<string>, done: seq<Ref>)
    requires LoopState(c, excluded, refs, |refs|, before, visited, done)
    ensures done == Preorder(c, excluded, refs, before)
  {
    assert refs[|refs|..] == [];
  }

  lemma RefAhead(c: Corpus, refs: seq<Ref>, i: nat)
    requires i < |refs| && Ids(refs[i..]) <= Universe(c)
    ensures refs[i..] == [refs[i]] + refs[i + 1..] && refs[i..][0] == refs[i] && refs[i..][1..] == refs[i + 1..]
    ensures refs[i].id in Universe(c) && Ids(refs[i + 1..]) <= Universe(c)
  {
    assert refs[i..] == [refs[i]] + refs[i + 1..];
    IdsOfConcat([refs[i]], refs[i + 1..]);
    assert Ids([refs[i]]) == {refs[i].id};
  }

  /** The reference loop passes over a reference met before. */
  lemma PassOver(c: Corpus, excluded: set<string>, refs: seq<Ref>, i: nat,
                 before: set<string>, visited: set<string>, done: seq<Ref>)
    requires i < |refs| && LoopState(c, excluded, refs, i, before, visited, done) && refs[i].id in visited
    ensures LoopState(c, excluded, refs, i + 1, before, visited, done)
  {
    RefAhead(c, refs, i);
  }

  /** The reference loop follows a reference met for the first time. */
  lemma FollowOne(c: Corpus, excluded: set<string>, refs: seq<Ref>, i: nat,
                  before: set<string>, visited: set<string>, done: seq<Ref>) returns (inner: seq<Ref>)
    requires i < |refs| && LoopState(c, excluded, refs, i, before, visited, done) && refs[i].id !in visited
    ensures refs[i].id in Universe(c)
    ensures inner == Preorder(c, excluded, Children(c, excluded, refs[i]), visited + {refs[i].id})
    ensures LoopState(c, excluded, refs, i + 1, before, visited + {refs[i].id} + Ids(inner),
                      done + ([refs[i]] + inner))
    ensures Sum(c, excluded, done + ([refs[i]] + inner)) ==
            Plus(Sum(c, excluded, done), Plus(One(c, excluded, refs[i]), Sum(c, excluded, inner)))
  {
    RefAhead(c, refs, i);
    inner := Preorder(c, excluded, Children(c, excluded, refs[i]), visited + {refs[i].id});
    var later := Preorder(c, excluded, refs[i + 1..], visited + {refs[i].id} + Ids(inner));
    assert Preorder(c, excluded, refs[i..], visited) == [refs[i]] + inner + later;
    MoreMet(c, excluded, done, refs[i], inner);
    Associative(done, [refs[i]] + inner, later);
  }

  /** One extraction run: the `visited` set shared by the whole recursion and a log of its lookups. */
  class Extractor {
    const corpus: Corpus
    const excluded: set<string>
    var visited: set<string>
    var lookups: seq<Ref>

    constructor (corpus: Corpus, excluded: set<string>)
      ensures this.corpus == corpus && this.excluded == excluded
      ensures visited == {} && lookups == []
    {
      this.corpus, this.excluded := corpus, excluded;
      visited, lookups := {}, [];
    }

    method ExtractFromModule(n: Ref, group: Option<string>, topLevel: bool) returns (result: Result<ExtractResult>)
      requires !n.kind.Dbio? && n.id !in visited
      modifies this
      ensures result.Failed? <==> topLevel && Read(corpus, n, group).Unreadable?
      ensures result.Failed? ==> result.error == Read(corpus, n, group).error
      ensures result.Success? ==> ListsAscend(result.value)
      ensures Ids(Refs(Read(corpus, n, group))) <= Universe(corpus)
      ensures var source := Read(corpus, n, group);
              var order := Preorder(corpus, excluded, Refs(source), old(visited) + {n.id});
              var total := Visit(n, source, Sum(corpus, excluded, order));
              && visited == old(visited) + {n.id} + Ids(order)
              && lookups == old(lookups) + total.lookups
              && (result.Success? ==> result.value == Report(total))
      decreases Universe(corpus) - (visited + {n.id}), 3
    {
      visited := visited + {n.id};
      lookups := lookups + [n];
      NothingMet(corpus, excluded);
      var source := Read(corpus, n, group);
      if source.Unreadable? {
        if topLevel {
          return Failed(source.error);
        }
        ReportAscends(NOTHING);
        return Success(Report(NOTHING));
      }

      ghost var below := Sum(corpus, excluded, Preorder(corpus, excluded, source.refs, visited));
      Associative(old(lookups), [n], below.lookups);
      VisitAdds(n, source.refs, below);
      var tables, dbios, batches, services, bizs := FollowAll(source.refs);
      if n.kind.Service? {
        services := {n.id} + services;
      } else if n.kind.Biz? {
        bizs := {n.id} + bizs;
      }
      ghost var total := Visit(n, source, below);
      assert services == total.services && bizs == total.bizs;
      result := Success(ExtractResult(
        SortedTexts(tables), dbios, SortedTexts(batches), SortedTexts(services), SortedTexts(bizs)));
    }

    /** The reference loop. */
    method FollowAll(refs: seq<Ref>)
      returns (tables: set<string>, dbios: seq<string>, batches: set<string>, services: set<string>, bizs: set<string>)
      requires Ids(refs) <= Universe(corpus)
      modifies this
      ensures var order := Preorder(corpus, excluded, refs, old(visited));
              var total := Sum(corpus, excluded, order);
              && visited == old(visited) + Ids(order)
              && lookups == old(lookups) + total.lookups
              && tables == total.tables && dbios == total.dbios && batches == total.batches
              && services == total.services && bizs == total.bizs
      decreases Universe(corpus) - visited, 2
    {
      tables, dbios, batches, services, bizs := {}, [], {}, {}, {};
      ghost var done: seq<Ref> := [];
      ghost var total := NOTHING;
      LoopStarts(corpus, excluded, refs, visited);
      for i := 0 to |refs|
        invariant LoopState(corpus, excluded, refs, i, old(visited), visited, done)
        invariant total == Sum(corpus, excluded, done)
        invariant lookups == old(lookups) + total.lookups
        invariant tables == total.tables && dbios == total.dbios && batches == total.batches
        invariant services == total.services && bizs == total.bizs
      {
        var r := refs[i];
        if r.id in visited {
          PassOver(corpus, excluded, refs, i, old(visited), visited, done);
          continue;
        }
        ghost var inner := FollowOne(corpus, excluded, refs, i, old(visited), visited, done);
        ghost var more := Plus(One(corpus, excluded, r), Sum(corpus, excluded, inner));
        Associative(old(lookups), total.lookups, more.lookups);
        done := done + ([r] + inner);
        total := Plus(total, more);
        assert old(visited) <= visited;
        var result := Meet(r);
        tables := tables + Elements(result.tables);
        dbios := dbios + result.dbios;
        batches := batches + Elements(result.batches);
        services := services + Elements(result.services);
        bizs := bizs + Elements(result.bizs);
      }
      LoopEnds(corpus, excluded, refs, old(visited), visited, done);
    }

    /** The part of the loop body that handles a reference met for the first time. */
    method Meet(r: Ref) returns (result: ExtractResult)
      requires r.id !in visited && r.id in Universe(corpus)
      modifies this
      ensures var inner := Preorder(corpus, excluded, Children(corpus, excluded, r), old(visited) + {r.id});
              && visited == old(visited) + {r.id} + Ids(inner)
              && lookups == old(lookups) + Plus(One(corpus, excluded, r), Sum(corpus, excluded, inner)).lookups
              && result == Report(Plus(One(corpus, excluded, r), Sum(corpus, excluded, inner)))
      decreases Universe(corpus) - visited, 1
    {
      ghost var inner := Preorder(corpus, excluded, Children(corpus, excluded, r), visited + {r.id});
      ghost var total := Plus(One(corpus, excluded, r), Sum(corpus, excluded, inner));
      NothingMet(corpus, excluded);
      PlusNothing(One(corpus, excluded, r));
      if r.id in excluded {
        visited := visited + {r.id};
        result := Report(NOTHING);
      } else if r.kind.Batch? {
        visited := visited + {r.id};
        assert total == NOTHING.(batches := {r.id});
        result := Report(NOTHING.(batches := {r.id}));
      } else if r.kind.Dbio? {
        visited := visited + {r.id};
        var found := TablesOfDbio(corpus, r.id);
        if found.Failed? {
          result := Report(NOTHING);
        } else {
          assert total == NOTHING.(tables := found.value, dbios := [r.id]);
          result := Report(NOTHING.(tables := found.value, dbios := [r.id]));
        }
      } else {
        ModuleMet(corpus, excluded, r, visited);
        var answer := ExtractFromModule(r, None, false);
        result := answer.value;
      }
    }
  }
}
