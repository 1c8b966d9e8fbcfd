/** The two tools look at one file tree from opposite ends: what a module reaches, and who reaches a DBIO. */
module Duality {
  import opened Texts
  import opened ProFrame
  import opened ModuleSource
  import opened ModuleLookup
  import CommentStripper
  import opened ReferenceScanner
  import opened Extraction
  import opened BatchExtraction
  import opened Callers
  import opened CallerTree

  /** One deployment: the tree, the call patterns, the remote grep, the DBIOs and the group map in use. */
  datatype World = World(
    tree: Tree, patterns: Patterns, grep: Grep, dbios: map<string, Result<set<string>>>, groupMap: map<Ref, string>)

  function NoBatches(): string -> seq<Hit> {
    (text: string) => []
  }

  /** Without a list of groups the batch pattern matches nothing. */
  function CallPatterns(w: World): Patterns {
    w.patterns.(batch := NoBatches())
  }

  function Scanned(w: World, text: Result<string>): Source {
    match text
    case Success(s) => Found(ModuleRefs(w.patterns, s))
    case Failed(e) => Unreadable(e)
  }

  function RefsIn(w: World, path: string): seq<Ref> {
    Refs(Scanned(w, ReadFile(w.tree, path)))
  }

  /** Every reference that some file makes. */
  function Mentioned(w: World): set<Ref> {
    set path, r | path in w.tree.files && r in RefsIn(w, path) :: r
  }

  // ----- Both views of one world -----

  /** What the extraction of `entry` can look up: the entry where it is, and every mentioned module by search. */
  function CorpusFor(w: World, entry: Ref, group: string): Corpus
    requires !entry.kind.Dbio?
  {
    Corpus(map[(entry, group) := Scanned(w, At(w.tree, entry.kind, group, entry.id))],
           map n | n in Mentioned(w) && !n.kind.Dbio? :: Scanned(w, Lookup(w.tree, n.kind, n.id, None, w.groupMap)),
           w.dbios)
  }

  function Forward(w: World, entry: Ref, group: string): Result<ExtractResult>
    requires !entry.kind.Dbio?
  {
    Outcome(Request(CorpusFor(w, entry, group), {}, {}, entry.kind, Some(group)), entry.id)
  }

  function CallersIn(w: World, n: Ref): Result<CallersResult> {
    FoundCallers(w.tree, CallPatterns(w), w.grep, n, [])
  }

  /** The caller answers for every mentioned DBIO and biz; others have no callers to find. */
  function AnswersOf(w: World): Answers {
    map n | n in Mentioned(w) && (n.kind.Dbio? || n.kind.Biz?) && CallersIn(w, n).Success? :: CallersIn(w, n).value
  }

  // ----- An orderly world -----

  /** `path` is a file that the path grammar takes for a source of `n` in group `g`. */
  ghost predicate IsSource(w: World, path: string, n: Ref, g: string) {
    path in w.tree.files && !n.kind.Dbio? && ParseModulePath(path) == Some(Located(n.kind, g, n.id))
  }

  /** An ID that a path can carry and that trimming leaves alone. */
  predicate Tidy(id: string) {
    id != "" && '/' !in id && '\n' !in id && Strip(id) == id
  }

  predicate Groups(w: World, g: string) {
    ListDir(w.tree, COMPILE_ROOT).Success? && g in ListDir(w.tree, COMPILE_ROOT).value
  }

  /** Group `g` has a file, readable or not, where the source of `n` would be. */
  predicate Holds(w: World, n: Ref, g: string) {
    !n.kind.Dbio? && At(w.tree, n.kind, g, n.id) != Failed(NotFound)
  }

  /** Sources lie at their canonical paths and can be read; a module has one source, in a listed group. */
  ghost predicate Placed(w: World) {
    && (forall g :: Groups(w, g) ==> g != "" && '/' !in g)
    && (forall path, n, g :: IsSource(w, path, n, g) ==>
          path == ModulePath(n.kind, g, n.id) && w.tree.files[path].Success?)
    && (forall n: Ref, g, h :: Holds(w, n, g) && Holds(w, n, h) ==> g == h && Groups(w, g))
  }

  /** `n` is a module with a source, or a reference some file makes. */
  ghost predicate Known(w: World, n: Ref) {
    n in Mentioned(w) || exists path, g :: IsSource(w, path, n, g)
  }

  /** IDs are tidy, each is used with one kind only, and nothing refers to a service. */
  ghost predicate Typed(w: World) {
    && (forall n :: Known(w, n) ==> Tidy(n.id))
    && (forall n, m :: Known(w, n) && Known(w, m) && n.id == m.id ==> n == m)
    && (forall n :: n in Mentioned(w) ==> !n.kind.Service?)
  }

  /** For every mentioned DBIO and biz, grep works and covers the sources that refer to it. */
  ghost predicate Covered(w: World) {
    forall n :: n in Mentioned(w) && (n.kind.Dbio? || n.kind.Biz?) ==>
      w.grep(n.id, COMPILE_ROOT).Success? &&
      forall path, m, g :: IsSource(w, path, m, g) && n in RefsIn(w, path) ==> path in w.grep(n.id, COMPILE_ROOT).value
  }

  ghost predicate Orderly(w: World) {
    Placed(w) && Typed(w) && Covered(w)
  }

  // ----- Lookups and sources -----

  lemma SourceIsAt(w: World, path: string, n: Ref, g: string)
    requires Placed(w) && IsSource(w, path, n, g)
    ensures At(w.tree, n.kind, g, n.id).Success? && RefsIn(w, path) == Refs(Scanned(w, At(w.tree, n.kind, g, n.id)))
    ensures Holds(w, n, g) && Groups(w, g)
  {
    assert path == ModulePath(n.kind, g, n.id);
    assert Holds(w, n, g);
  }

  lemma OneSource(w: World, n: Ref, path: string, g: string, path': string, g': string)
    requires Placed(w) && IsSource(w, path, n, g) && IsSource(w, path', n, g')
    ensures path == path' && g == g'
  {
    SourceIsAt(w, path, n, g);
    SourceIsAt(w, path', n, g');
  }

  /** Whatever the group map says, a module is looked up where its one source is. */
  lemma LookupIsAt(w: World, n: Ref, g: string)
    requires Placed(w) && Holds(w, n, g)
    ensures Lookup(w.tree, n.kind, n.id, None, w.groupMap) == At(w.tree, n.kind, g, n.id)
  {
    forall h | At(w.tree, n.kind, h, n.id) != Failed(NotFound) ensures h == g && Groups(w, h) {
      assert Holds(w, n, h);
    }
    UniqueModuleIsSafe(w.tree, n.kind, n.id, w.groupMap);
    FoundInItsGroup(w.tree, n.kind, n.id, ListDir(w.tree, COMPILE_ROOT).value, g);
  }

  lemma {:induction false} FoundSomewhere(t: Tree, kind: Kind, id: string, groups: seq<string>) returns (g: string)
    requires !kind.Dbio? && FirstFound(t, kind, id, groups).Success?
    ensures At(t, kind, g, id).Success?
  {
    if At(t, kind, groups[0], id) == Failed(NotFound) {
      g := FoundSomewhere(t, kind, id, groups[1..]);
    } else {
      g := groups[0];
    }
  }

  /** A module whose lookup succeeds has a source. */
  lemma LookupHasSource(w: World, n: Ref) returns (path: string, g: string)
    requires Placed(w) && !n.kind.Dbio? && Tidy(n.id) && Lookup(w.tree, n.kind, n.id, None, w.groupMap).Success?
    ensures IsSource(w, path, n, g)
  {
    if n in w.groupMap && At(w.tree, n.kind, w.groupMap[n], n.id) != Failed(NotFound) {
      g := w.groupMap[n];
    } else {
      g := FoundSomewhere(w.tree, n.kind, n.id, ListDir(w.tree, COMPILE_ROOT).value);
    }
    path := ModulePath(n.kind, g, n.id);
    assert Holds(w, n, g);
    ParseUndoesPath(n.kind, g, n.id);
  }

  /** In the corpus a mentioned module has the references of its source, and one without a source has none. */
  lemma ReadIsSource(w: World, entry: Ref, group: string, n: Ref, path: string, g: string)
    requires Placed(w) && !entry.kind.Dbio? && n in Mentioned(w) && IsSource(w, path, n, g)
    ensures Read(CorpusFor(w, entry, group), n, None) == Found(RefsIn(w, path))
  {
    SourceIsAt(w, path, n, g);
    LookupIsAt(w, n, g);
  }

  lemma ReadHasSource(w: World, entry: Ref, group: string, n: Ref, r: Ref) returns (path: string, g: string)
    requires Placed(w) && Typed(w) && !entry.kind.Dbio? && !n.kind.Dbio?
    requires r in Refs(Read(CorpusFor(w, entry, group), n, None))
    ensures n in Mentioned(w) && IsSource(w, path, n, g) && r in RefsIn(w, path)
  {
    assert Known(w, n);
    path, g := LookupHasSource(w, n);
    ReadIsSource(w, entry, group, n, path, g);
  }

  // ----- One step, seen from both ends -----

  lemma SameCallRefs(w: World, text: string, r: Ref)
    requires r.kind.Dbio? || r.kind.Biz?
    ensures r in ModuleRefs(CallPatterns(w), text) <==> r in ModuleRefs(w.patterns, text)
  {
    RefsAreTheMatches(CallPatterns(w), text, r);
    RefsAreTheMatches(w.patterns, text, r);
    SameMatches(w, CommentStripper.Scan(CommentStripper.Normal, text).text, r);
  }

  lemma SameMatches(w: World, cleaned: string, r: Ref)
    requires r.kind.Dbio? || r.kind.Biz?
    ensures (exists m :: m in Matches(CallPatterns(w), cleaned) && m.ref == r) <==>
            (exists m :: m in Matches(w.patterns, cleaned) && m.ref == r)
  {
    var p := w.patterns;
    var calls := Tagged(Dbio, p.dbio(cleaned)) + Tagged(Biz, p.biz(cleaned)) + Tagged(Service, p.service(cleaned));
    assert Matches(CallPatterns(w), cleaned) == calls + [];
    assert Matches(p, cleaned) == calls + Tagged(Batch, p.batch(cleaned));
    forall m | m in Tagged(Batch, p.batch(cleaned)) ensures m.ref != r {
    }
    assert forall m: Match :: m.ref == r ==> (m in Matches(CallPatterns(w), cleaned) <==> m in Matches(p, cleaned));
  }

  /** `n` refers to `x`. */
  ghost predicate Edge(w: World, n: Ref, x: Ref) {
    exists path, g :: IsSource(w, path, n, g) && x in RefsIn(w, path)
  }

  lemma EdgeIsMentioned(w: World, n: Ref, x: Ref)
    requires Edge(w, n, x)
    ensures x in Mentioned(w)
  {
    var path, g :| IsSource(w, path, n, g) && x in RefsIn(w, path);
  }

  lemma ConfirmedIsEdge(w: World, x: Ref, path: string, n: Ref)
    requires x.kind.Dbio? || x.kind.Biz?
    ensures Confirmed(w.tree, CallPatterns(w), x, path, n) <==>
            (exists g :: IsSource(w, path, n, g)) && x in RefsIn(w, path)
  {
    if ReadFile(w.tree, path).Success? {
      SameCallRefs(w, ReadFile(w.tree, path).value, x);
    }
    ParsedKinds(path);
    if Confirmed(w.tree, CallPatterns(w), x, path, n) {
      assert IsSource(w, path, n, ParseModulePath(path).value.group);
    }
  }

  lemma MentionedHasAnswer(w: World, x: Ref)
    requires Orderly(w) && x in Mentioned(w) && (x.kind.Dbio? || x.kind.Biz?)
    ensures CallersIn(w, x).Success?
    ensures forall n :: Listed(CallersIn(w, x).value, n) <==>
                        exists path :: path in w.grep(x.id, COMPILE_ROOT).value &&
                            Confirmed(w.tree, CallPatterns(w), x, path, n)
  {
    assert Known(w, x);
    assert x == Ref(x.kind, Strip(x.id));
    CallersAreConfirmed(w.tree, CallPatterns(w), w.grep, x, []);
    forall path | ParseModulePath(path).Some?
      ensures ReadFile(w.tree, path).Success? || ReadFile(w.tree, path) == Failed(NotFound)
    {
      ParsedKinds(path);
      var at := ParseModulePath(path).value;
      if path in w.tree.files {
        assert IsSource(w, path, Ref(at.kind, at.id), at.group);
      }
    }
  }

  /** The answers name exactly the modules that refer to what was asked about. */
  lemma AnswersAreEdges(w: World, x: Ref, n: Ref)
    requires Orderly(w) && (x.kind.Dbio? || x.kind.Biz?)
    ensures Listed(CallersOf(AnswersOf(w), x), n) <==> Edge(w, n, x)
  {
    if Edge(w, n, x) {
      EdgeIsMentioned(w, n, x);
    }
    if x in Mentioned(w) {
      MentionedHasAnswer(w, x);
      if Listed(CallersIn(w, x).value, n) {
        var path :| path in w.grep(x.id, COMPILE_ROOT).value && Confirmed(w.tree, CallPatterns(w), x, path, n);
        ConfirmedIsEdge(w, x, path, n);
      }
      if Edge(w, n, x) {
        var path, g :| IsSource(w, path, n, g) && x in RefsIn(w, path);
        ConfirmedIsEdge(w, x, path, n);
      }
    }
  }

  /** The extraction follows exactly the references of mentioned modules' sources. */
  lemma ChildrenAreEdges(w: World, entry: Ref, group: string, n: Ref, x: Ref)
    requires Orderly(w) && !entry.kind.Dbio? && n in Mentioned(w) && n.kind.Biz?
    ensures Follows(CorpusFor(w, entry, group), {}, n, x) <==> Edge(w, n, x)
  {
    if Follows(CorpusFor(w, entry, group), {}, n, x) {
      var path, g := ReadHasSource(w, entry, group, n, x);
    }
    if Edge(w, n, x) {
      var path, g :| IsSource(w, path, n, g) && x in RefsIn(w, path);
      ReadIsSource(w, entry, group, n, path, g);
    }
  }

  /** The entry's own references are those of its source. */
  function Start(w: World, entry: Ref, group: string): seq<Ref>
    requires !entry.kind.Dbio?
  {
    Refs(Scanned(w, At(w.tree, entry.kind, group, entry.id)))
  }

  lemma StartIsEdges(w: World, entry: Ref, group: string, path: string, x: Ref)
    requires Placed(w) && IsSource(w, path, entry, group)
    ensures x in Start(w, entry, group) <==> Edge(w, entry, x)
  {
    SourceIsAt(w, path, entry, group);
    if Edge(w, entry, x) {
      var path', g :| IsSource(w, path', entry, g) && x in RefsIn(w, path');
      OneSource(w, entry, path, group, path', g);
    }
  }

  /** The answers name exactly the modules that refer to what was asked about. */
  ghost predicate Backwards(w: World, m: Answers) {
    forall n, x: Ref :: x.kind.Dbio? || x.kind.Biz? ==> (Listed(CallersOf(m, x), n) <==> Edge(w, n, x))
  }

  /** Out of a mentioned module the extraction follows exactly its references, and only bizs lead on. */
  ghost predicate Forwards(w: World, c: Corpus) {
    forall n, x :: n in Mentioned(w) ==> (Follows(c, {}, n, x) <==> n.kind.Biz? && Edge(w, n, x))
  }

  lemma AnswersGoBackwards(w: World)
    requires Orderly(w)
    ensures Backwards(w, AnswersOf(w))
  {
    forall n, x: Ref | x.kind.Dbio? || x.kind.Biz? ensures Listed(CallersOf(AnswersOf(w), x), n) <==> Edge(w, n, x) {
      AnswersAreEdges(w, x, n);
    }
  }

  lemma CorpusGoesForwards(w: World, entry: Ref, group: string)
    requires Orderly(w) && !entry.kind.Dbio?
    ensures Forwards(w, CorpusFor(w, entry, group))
  {
    forall n, x | n in Mentioned(w)
      ensures Follows(CorpusFor(w, entry, group), {}, n, x) <==> n.kind.Biz? && Edge(w, n, x)
    {
      if n.kind.Biz? {
        ChildrenAreEdges(w, entry, group, n, x);
      }
    }
  }

  // ----- Walks and chains -----

  ghost function BizEdge(w: World): (Ref, Ref) -> bool {
    (n: Ref, x: Ref) => n.kind.Biz? && Edge(w, n, x)
  }

  /** `p` leads from the entry's references, through modules that refer to one another, to `x`. */
  ghost predicate Trail(w: World, entry: Ref, p: seq<Ref>, x: Ref) {
    && p != [] && p[|p| - 1] == x && Edge(w, entry, p[0])
    && (forall i :: 0 < i < |p| ==> BizEdge(w)(p[i - 1], p[i]))
  }

  lemma TrailIsMentioned(w: World, entry: Ref, p: seq<Ref>, x: Ref, i: nat)
    requires Trail(w, entry, p, x) && i < |p|
    ensures p[i] in Mentioned(w)
  {
    if i == 0 {
      EdgeIsMentioned(w, entry, p[0]);
    } else {
      assert BizEdge(w)(p[i - 1], p[i]);
      EdgeIsMentioned(w, p[i - 1], p[i]);
    }
  }

  /** A walk of the extraction is a trail. */
  lemma WalkIsTrail(w: World, c: Corpus, entry: Ref, start: seq<Ref>, p: seq<Ref>)
    requires Forwards(w, c) && Walk(c, {}, entry, start, p) && Edge(w, entry, p[0])
    ensures Trail(w, entry, p, p[|p| - 1])
  {
    forall i | 0 < i < |p| ensures Steps(c)(p[i - 1], p[i]) {
      assert Follows(c, {}, p[i - 1], p[i - 1 + 1]);
    }
    forall a, b | a in Mentioned(w) && Steps(c)(a, b) ensures BizEdge(w)(a, b) && b in Mentioned(w) {
      OneStep(w, c, a, b);
    }
    EdgeIsMentioned(w, entry, p[0]);
    AllSteps(Mentioned(w), Steps(c), BizEdge(w), p, |p| - 1);
  }

  ghost function Steps(c: Corpus): (Ref, Ref) -> bool {
    (a: Ref, b: Ref) => Follows(c, {}, a, b)
  }

  lemma {:induction false} AllSteps(inside: set<Ref>, step: (Ref, Ref) -> bool, edge: (Ref, Ref) -> bool, p: seq<Ref>,
                                    k: nat)
    requires k < |p| && p[0] in inside && forall i :: 0 < i < |p| ==> step(p[i - 1], p[i])
    requires forall a, b :: a in inside && step(a, b) ==> edge(a, b) && b in inside
    ensures p[k] in inside && forall i :: 0 < i <= k ==> edge(p[i - 1], p[i])
  {
    if k > 0 {
      AllSteps(inside, step, edge, p, k - 1);
      assert step(p[k - 1], p[k]);
    }
  }

  lemma OneStep(w: World, c: Corpus, a: Ref, b: Ref)
    requires Forwards(w, c) && a in Mentioned(w) && Follows(c, {}, a, b)
    ensures BizEdge(w)(a, b) && b in Mentioned(w)
  {
    EdgeIsMentioned(w, a, b);
  }

  /** A trail to a DBIO, read backwards, is a chain of callers. */
  lemma TrailIsChain(w: World, m: Answers, entry: Ref, p: seq<Ref>, d: Ref)
    requires Backwards(w, m) && d.kind.Dbio? && Trail(w, entry, p, d)
    ensures Reaches(m, d, entry)
  {
    forall i | 0 < i < |p| ensures Calls(m)(p[i - 1], p[i]) {
      TrailCalls(w, m, entry, p, d, i);
    }
    assert |p| > 1 ==> BizEdge(w)(p[1 - 1], p[1]);
    assert Listed(CallersOf(m, p[0]), entry);
    CallsMakeChain(m, p, entry, d);
  }

  lemma TrailCalls(w: World, m: Answers, entry: Ref, p: seq<Ref>, d: Ref, i: nat)
    requires Backwards(w, m) && d.kind.Dbio? && Trail(w, entry, p, d) && 0 < i < |p|
    ensures Calls(m)(p[i - 1], p[i])
  {
    var n, x := p[i - 1], p[i];
    assert BizEdge(w)(n, x);
    if i < |p| - 1 {
      assert BizEdge(w)(p[i + 1 - 1], p[i + 1]);
    }
    assert Listed(CallersOf(m, x), n);
  }

  lemma CallsMakeChain(m: Answers, p: seq<Ref>, entry: Ref, d: Ref)
    requires p != [] && p[|p| - 1] == d && Listed(CallersOf(m, p[0]), entry)
    requires forall i :: 0 < i < |p| ==> Calls(m)(p[i - 1], p[i])
    ensures Reaches(m, d, entry)
  {
    var c: Item := Reverse(p);
    ReverseTurnsBack(p, Calls(m));
    forall i | 0 < i < |c| ensures c[i].kind.Biz? && c[i].id in CallersOf(m, c[i - 1]).bizs {
      assert Calls(m)(c[i], c[i - 1]);
    }
    assert c[0] == d && Chain(m, c) && Last(c) == p[0];
  }

  /** `n` is a biz that the answer for `x` names. */
  function Calls(m: Answers): (Ref, Ref) -> bool {
    (n: Ref, x: Ref) => n.kind.Biz? && n.id in CallersOf(m, x).bizs
  }

  /** A chain of callers of a DBIO, read backwards, is a trail. */
  lemma ChainIsTrail(w: World, m: Answers, entry: Ref, d: Ref) returns (p: seq<Ref>)
    requires Backwards(w, m) && d.kind.Dbio? && Reaches(m, d, entry)
    ensures Trail(w, entry, p, d)
  {
    var c: Item :| c[0] == d && Chain(m, c) && Listed(CallersOf(m, Last(c)), entry);
    forall k | 0 < k < |c| ensures BizEdge(w)(c[k], c[k - 1]) {
      assert Listed(CallersOf(m, c[k - 1]), c[k]);
    }
    p := Reverse(c);
    ReverseTurnsLinks(c, BizEdge(w));
    assert p[0] == Last(c);
  }

  /** What a trail leads to is reached by the extraction. */
  lemma TrailIsReached(w: World, c: Corpus, entry: Ref, start: seq<Ref>, p: seq<Ref>, x: Ref)
    requires Forwards(w, c) && Trail(w, entry, p, x)
    requires forall r :: r in start <==> Edge(w, entry, r)
    requires forall r :: Follows(c, {}, entry, r) ==> r in start
    ensures Reached(c, {}, entry, start, x)
  {
    forall i | 0 <= i < |p| - 1 ensures Follows(c, {}, p[i], p[i + 1]) {
      TrailIsMentioned(w, entry, p, x, i);
      assert BizEdge(w)(p[i + 1 - 1], p[i + 1]);
    }
    LoopsAddNothing(c, {}, entry, start, p);
  }

  /** What the extraction starts from: the references of the entry's source. */
  lemma StartIsSource(w: World, entry: Ref, group: string, path: string)
    requires Orderly(w) && IsSource(w, path, entry, group)
    ensures forall r :: r in Start(w, entry, group) <==> Edge(w, entry, r)
    ensures forall r :: Follows(CorpusFor(w, entry, group), {}, entry, r) ==> r in Start(w, entry, group)
  {
    forall r ensures r in Start(w, entry, group) <==> Edge(w, entry, r) {
      StartIsEdges(w, entry, group, path, r);
    }
    forall r | Follows(CorpusFor(w, entry, group), {}, entry, r) ensures r in Start(w, entry, group) {
      var path', g := ReadHasSource(w, entry, group, entry, r);
      assert Edge(w, entry, r);
    }
  }

  lemma ReachedIsMentioned(w: World, c: Corpus, entry: Ref, start: seq<Ref>, x: Ref)
    requires Forwards(w, c) && Reached(c, {}, entry, start, x)
    requires forall r :: r in start <==> Edge(w, entry, r)
    ensures x in Mentioned(w)
  {
    var p :| Walk(c, {}, entry, start, p) && p[|p| - 1] == x;
    WalkIsTrail(w, c, entry, start, p);
    TrailIsMentioned(w, entry, p, x, |p| - 1);
  }

  lemma ReachedIsReaching(w: World, entry: Ref, group: string, path: string, d: Ref)
    requires Orderly(w) && IsSource(w, path, entry, group) && d.kind.Dbio?
    ensures Reached(CorpusFor(w, entry, group), {}, entry, Start(w, entry, group), d) <==>
            Reaches(AnswersOf(w), d, entry)
  {
    CorpusGoesForwards(w, entry, group);
    AnswersGoBackwards(w);
    StartIsSource(w, entry, group, path);
    BothWays(w, CorpusFor(w, entry, group), AnswersOf(w), entry, Start(w, entry, group), d);
  }

  lemma BothWays(w: World, c: Corpus, m: Answers, entry: Ref, start: seq<Ref>, d: Ref)
    requires Forwards(w, c) && Backwards(w, m) && d.kind.Dbio?
    requires forall r :: r in start <==> Edge(w, entry, r)
    requires forall r :: Follows(c, {}, entry, r) ==> r in start
    ensures Reached(c, {}, entry, start, d) <==> Reaches(m, d, entry)
  {
    if Reached(c, {}, entry, start, d) {
      var p :| Walk(c, {}, entry, start, p) && p[|p| - 1] == d;
      WalkIsTrail(w, c, entry, start, p);
      TrailIsChain(w, m, entry, p, d);
    }
    if Reaches(m, d, entry) {
      var p := ChainIsTrail(w, m, entry, d);
      TrailIsReached(w, c, entry, start, p, d);
    }
  }

  lemma OneKind(w: World, entry: Ref, group: string, path: string)
    requires Orderly(w) && IsSource(w, path, entry, group)
    ensures OneKindPerId(CorpusFor(w, entry, group), {}, entry, Start(w, entry, group))
  {
    assert Known(w, entry);
    CorpusGoesForwards(w, entry, group);
    StartIsSource(w, entry, group, path);
    forall r | Reached(CorpusFor(w, entry, group), {}, entry, Start(w, entry, group), r) ensures Known(w, r) {
      ReachedIsMentioned(w, CorpusFor(w, entry, group), entry, Start(w, entry, group), r);
    }
  }

  /** In an orderly world the extraction of a module lists a DBIO exactly when the module is named under some item
      of the DBIO's fully opened caller tree. */
  lemma ForwardIsBackward(w: World, entry: Ref, group: string, path: string, d: string)
    requires Orderly(w) && IsSource(w, path, entry, group)
    requires d in w.dbios && w.dbios[d].Success?
    ensures Forward(w, entry, group).Success?
    ensures d in Forward(w, entry, group).value.dbios <==>
            exists q :: q in CallerTree.Tree(AnswersOf(w), [Ref(Dbio, d)]) &&
                Listed(CallersOf(AnswersOf(w), Last(q)), entry)
  {
    var c, start := CorpusFor(w, entry, group), Start(w, entry, group);
    SourceIsAt(w, path, entry, group);
    OneKind(w, entry, group, path);
    ReachedIsReaching(w, entry, group, path, Ref(Dbio, d));
    ForwardIsReport(w, entry, group, d);
    EveryCallerIsNamed(AnswersOf(w), Ref(Dbio, d), entry);
  }

  /** The DBIOs that use a table, the roots of a table search. */
  function DbiosUsing(w: World, table: string): set<Ref> {
    set d | d in w.dbios && w.dbios[d].Success? && table in w.dbios[d].value :: Ref(Dbio, d)
  }

  lemma ForwardTables(w: World, entry: Ref, group: string, path: string, table: string)
    requires Orderly(w) && IsSource(w, path, entry, group)
    ensures Forward(w, entry, group).Success?
    ensures table in Forward(w, entry, group).value.tables <==>
            exists r :: r in DbiosUsing(w, table) && Reaches(AnswersOf(w), r, entry)
  {
    var c, start := CorpusFor(w, entry, group), Start(w, entry, group);
    SourceIsAt(w, path, entry, group);
    OneKind(w, entry, group, path);
    assert Read(c, entry, Some(group)) == Found(start);
    TablesAreReached(Request(c, {}, {}, entry.kind, Some(group)), entry, start, table);
    forall d ensures Reached(c, {}, entry, start, Ref(Dbio, d)) <==> Reaches(AnswersOf(w), Ref(Dbio, d), entry) {
      ReachedIsReaching(w, entry, group, path, Ref(Dbio, d));
    }
    SameDbios(w, c, AnswersOf(w), entry, start, table);
  }

  lemma SameDbios(w: World, c: Corpus, m: Answers, entry: Ref, start: seq<Ref>, table: string)
    requires c.dbios == w.dbios
    requires forall d :: Reached(c, {}, entry, start, Ref(Dbio, d)) <==> Reaches(m, Ref(Dbio, d), entry)
    ensures (exists d :: Reached(c, {}, entry, start, Ref(Dbio, d)) && UsesTable(c, d, table)) <==>
            (exists r :: r in DbiosUsing(w, table) && Reaches(m, r, entry))
  {
    if d :| Reached(c, {}, entry, start, Ref(Dbio, d)) && UsesTable(c, d, table) {
      assert Ref(Dbio, d) in DbiosUsing(w, table);
    }
    if r :| r in DbiosUsing(w, table) && Reaches(m, r, entry) {
      assert r == Ref(Dbio, r.id) && UsesTable(c, r.id, table);
    }
  }

  lemma TablesAreReached(q: Request, entry: Ref, start: seq<Ref>, table: string)
    requires !entry.kind.Dbio? && q.kind == entry.kind && q.excludedRefs == {} && q.excludedTables == {}
    requires Read(q.corpus, entry, q.group) == Found(start) && OneKindPerId(q.corpus, {}, entry, start)
    ensures Outcome(q, entry.id).Success?
    ensures table in Outcome(q, entry.id).value.tables <==>
            exists d :: Reached(q.corpus, {}, entry, start, Ref(Dbio, d)) && UsesTable(q.corpus, d, table)
  {
    assert entry == Ref(q.kind, entry.id);
    OutcomeReachability(q, entry.id, table);
    if d :| Reached(q.corpus, {}, entry, start, Ref(Dbio, d)) && UsesTable(q.corpus, d, table) {
      assert ReachesDbio(q, entry.id, d);
    }
  }

  /** The same for tables: a module is in the totals of a table search, everything opened, exactly when the table is in
      the module's extraction. */
  lemma TableSearchIsBackward(w: World, entry: Ref, group: string, path: string, table: string, total: set<string>)
    requires Orderly(w) && IsSource(w, path, entry, group)
    requires ExactlyReaching(AnswersOf(w), DbiosUsing(w, table), entry.kind, total)
    ensures Forward(w, entry, group).Success?
    ensures table in Forward(w, entry, group).value.tables <==> entry.id in total
  {
    ForwardTables(w, entry, group, path, table);
    assert entry == Ref(entry.kind, entry.id);
  }

  lemma ForwardIsReport(w: World, entry: Ref, group: string, d: string)
    requires !entry.kind.Dbio? && At(w.tree, entry.kind, group, entry.id).Success?
    requires d in w.dbios && w.dbios[d].Success?
    requires OneKindPerId(CorpusFor(w, entry, group), {}, entry, Start(w, entry, group))
    ensures Forward(w, entry, group).Success?
    ensures d in Forward(w, entry, group).value.dbios <==>
            Reached(CorpusFor(w, entry, group), {}, entry, Start(w, entry, group), Ref(Dbio, d))
  {
    var c, start := CorpusFor(w, entry, group), Start(w, entry, group);
    ReadStaysInUniverse(c, entry, Some(group));
    OutcomeIsReached(Request(c, {}, {}, entry.kind, Some(group)), entry, start, d);
  }

  lemma OutcomeIsReached(q: Request, entry: Ref, start: seq<Ref>, d: string)
    requires !entry.kind.Dbio? && q.kind == entry.kind && q.excludedRefs == {}
    requires Ids(start) <= Universe(q.corpus) && Read(q.corpus, entry, q.group) == Found(start)
    requires OneKindPerId(q.corpus, {}, entry, start) && TablesOfDbio(q.corpus, d).Success?
    ensures Outcome(q, entry.id).Success?
    ensures d in Outcome(q, entry.id).value.dbios <==> Reached(q.corpus, {}, entry, start, Ref(Dbio, d))
  {
    ReportIsExact(q.corpus, {}, entry, start);
    assert entry == Ref(q.kind, entry.id);
  }

  /** Asking about a DBIO or biz that no file mentions finds no callers, so leaving it out of the answers is right. */
  lemma OthersHaveNoCallers(w: World, x: Ref, n: Ref)
    requires Orderly(w) && x !in Mentioned(w) && (x.kind.Dbio? || x.kind.Biz?)
    requires Strip(x.id) == x.id && CallersIn(w, x).Success?
    ensures !Listed(CallersIn(w, x).value, n)
  {
    assert x == Ref(x.kind, Strip(x.id));
    CallersAreConfirmed(w.tree, CallPatterns(w), w.grep, x, []);
    forall path ensures !Confirmed(w.tree, CallPatterns(w), x, path, n) {
      ConfirmedIsEdge(w, x, path, n);
      assert path !in w.tree.files ==> RefsIn(w, path) == [];
    }
  }

  /** The total lists `entry` exactly when the table is in its extraction. */
  predicate TableAgrees(w: World, table: string, entry: Ref, group: string, total: set<string>)
    requires !entry.kind.Dbio?
  {
    var result := Forward(w, entry, group);
    result.Success? && (table in result.value.tables <==> entry.id in total)
  }

  /** The totals of a table's search agree with the extraction of every module that has a source. */
  ghost predicate TotalsAgree(w: World, table: string, services: set<string>, bizs: set<string>, batches: set<string>) {
    forall path, entry, group :: IsSource(w, path, entry, group) ==>
      TableAgrees(w, table, entry, group,
                  match entry.kind case Service => services case Biz => bizs case Batch => batches case Dbio => {})
  }

  /** A table search with everything opened: the totals list a module exactly when the table is in its extraction. */
  method SearchTable(w: World, table: string) returns (screen: Screen)
    requires Orderly(w)
    ensures fresh(screen) && screen.Valid() && screen.shown == screen.loaded
    ensures TotalsAgree(w, table, screen.services, screen.bizs, screen.batches)
  {
    var answers, roots := AnswersOf(w), DbiosUsing(w, table);
    screen := new Screen(answers, roots);
    screen.OpenEverything();
    EveryTotalAgrees(w, answers, roots, table, screen.services, screen.bizs, screen.batches);
  }

  lemma EveryTotalAgrees(w: World, m: Answers, roots: set<Ref>, table: string, services: set<string>, bizs: set<string>,
                         batches: set<string>)
    requires Orderly(w) && m == AnswersOf(w) && roots == DbiosUsing(w, table)
    requires ExactlyReaching(m, roots, Service, services)
    requires ExactlyReaching(m, roots, Biz, bizs)
    requires ExactlyReaching(m, roots, Batch, batches)
    ensures TotalsAgree(w, table, services, bizs, batches)
  {
    forall path, entry, group | IsSource(w, path, entry, group)
      ensures TableAgrees(w, table, entry, group, match entry.kind case Service => services case Biz => bizs
                                                                  case Batch => batches case Dbio => {})
    {
      match entry.kind {
        case Service => TableSearchIsBackward(w, entry, group, path, table, services);
        case Biz => TableSearchIsBackward(w, entry, group, path, table, bizs);
        case Batch => TableSearchIsBackward(w, entry, group, path, table, batches);
      }
    }
  }
}
