/** Who calls a DBIO or a biz: grep for candidates, then confirm each one by scanning its source. */
module Callers {
  import opened Texts
  import opened ProFrame
  import opened ModuleSource
  import opened ModuleLookup
  import opened ReferenceScanner

  datatype CallersResult = CallersResult(services: seq<string>, bizs: seq<string>, batches: seq<string>)

  const NO_CALLERS := CallersResult([], [], [])

  /** The remote grep: the files under a directory that hold a word, or a failure. */
  type Grep = (string, string) -> Result<seq<string>>

  function GroupRoot(group: string): string {
    COMPILE_ROOT + "/" + group
  }

  /** Candidates from the given groups one after the other; the first failing grep fails the search. */
  function GroupHits(grep: Grep, id: string, groups: seq<string>): Result<seq<string>> {
    if groups == [] then Success([])
    else
      match GroupHits(grep, id, groups[..|groups| - 1])
      case Failed(e) => Failed(e)
      case Success(before) =>
        match grep(id, GroupRoot(groups[|groups| - 1]))
        case Failed(e) => Failed(e)
        case Success(more) => Success(before + more)
  }

  function Hits(grep: Grep, id: string, groups: seq<string>): Result<seq<string>> {
    if groups == [] then grep(id, COMPILE_ROOT) else GroupHits(grep, id, groups)
  }

  /** What becomes of one candidate: it is no caller, it is one, or the whole search fails. */
  datatype Verdict = Skip | Caller(n: Ref) | Broken(error: Failure)

  function Judge(t: Tree, p: Patterns, target: Ref, path: string): Verdict {
    match ParseModulePath(path)
    case None => Skip
    case Some(at) =>
      match ReadFile(t, path)
      case Failed(NotFound) => Skip
      case Failed(e) => Broken(e)
      case Success(text) => if target in ModuleRefs(p, text) then Caller(Ref(at.kind, at.id)) else Skip
  }

  function List(c: CallersResult, n: Ref): CallersResult {
    match n.kind
    case Service => c.(services := c.services + [n.id])
    case Biz => c.(bizs := c.bizs + [n.id])
    case Batch => c.(batches := c.batches + [n.id])
    case Dbio => c
  }

  function Confirm(t: Tree, p: Patterns, target: Ref, so: CallersResult, hits: seq<string>): Result<CallersResult>
    decreases |hits|
  {
    if hits == [] then Success(so)
    else
      match Judge(t, p, target, hits[0])
      case Skip => Confirm(t, p, target, so, hits[1..])
      case Broken(e) => Failed(e)
      case Caller(n) => Confirm(t, p, target, List(so, n), hits[1..])
  }

  function Arranged(c: CallersResult): CallersResult {
    CallersResult(SortedTexts(Elements(c.services)), SortedTexts(Elements(c.bizs)), SortedTexts(Elements(c.batches)))
  }

  function FoundCallers(t: Tree, p: Patterns, grep: Grep, target: Ref, groups: seq<string>): Result<CallersResult> {
    var ident := Strip(target.id);
    match Hits(grep, ident, groups)
    case Failed(e) => Failed(e)
    case Success(hits) =>
      match Confirm(t, p, Ref(target.kind, ident), NO_CALLERS, hits)
      case Failed(e) => Failed(e)
      case Success(c) => Success(Arranged(c))
  }

  method CollectHits(grep: Grep, ident: string, groups: seq<string>) returns (result: Result<seq<string>>)
    ensures result == Hits(grep, ident, groups)
  {
    if groups == [] {
      return grep(ident, COMPILE_ROOT);
    }
    var hits: seq<string> := [];
    for i := 0 to |groups|
      invariant GroupHits(grep, ident, groups[..i]) == Success(hits)
    {
      assert groups[..i + 1][..i] == groups[..i];
      var more := grep(ident, COMPILE_ROOT + "/" + groups[i]);
      if more.Failed? {
        GroupFailureStays(grep, ident, groups, i + 1);
        return more;
      }
      hits := hits + more.value;
    }
    assert groups[..|groups|] == groups;
    result := Success(hits);
  }

  lemma {:induction false} GroupFailureStays(grep: Grep, id: string, groups: seq<string>, i: nat)
    requires i <= |groups| && GroupHits(grep, id, groups[..i]).Failed?
    ensures GroupHits(grep, id, groups) == GroupHits(grep, id, groups[..i])
    decreases |groups| - i
  {
    if i == |groups| {
      assert groups[..i] == groups;
    } else {
      assert groups[..i + 1][..i] == groups[..i];
      GroupFailureStays(grep, id, groups, i + 1);
    }
  }

  method FindCallers(t: Tree, p: Patterns, grep: Grep, target: Ref, groups: seq<string>)
    returns (result: Result<CallersResult>)
    ensures result == FoundCallers(t, p, grep, target, groups)
  {
    var wanted := Ref(target.kind, Strip(target.id));
    var found := CollectHits(grep, wanted.id, groups);
    if found.Failed? {
      return Failed(found.error);
    }
    var hits := found.value;
    var c := NO_CALLERS;
    assert hits[0..] == hits;
    for i := 0 to |hits|
      invariant Confirm(t, p, wanted, NO_CALLERS, hits) == Confirm(t, p, wanted, c, hits[i..])
    {
      assert hits[i..][0] == hits[i] && hits[i..][1..] == hits[i + 1..];
      var parsed := ParseModulePath(hits[i]);
      if parsed.None? {
        continue;
      }
      var source := ReadFile(t, hits[i]);
      if source == Failed(NotFound) {
        continue;
      }
      if source.Failed? {
        return Failed(source.error);
      }
      var refs := ScanModuleRefs(p, source.value);
      if wanted !in refs {
        continue;
      }
      match parsed.value.kind {
        case Service => c := c.(services := c.services + [parsed.value.id]);
        case Biz => c := c.(bizs := c.bizs + [parsed.value.id]);
        case Batch => c := c.(batches := c.batches + [parsed.value.id]);
        case Dbio =>
      }
    }
    result := Success(Arranged(c));
  }

  // ----- What is found -----

  predicate Listed(c: CallersResult, n: Ref) {
    match n.kind
    case Service => n.id in c.services
    case Biz => n.id in c.bizs
    case Batch => n.id in c.batches
    case Dbio => false
  }

  lemma ListedAfter(c: CallersResult, n: Ref, m: Ref)
    ensures Listed(List(c, n), m) <==> Listed(c, m) || (m == n && !n.kind.Dbio?)
  {
  }

  lemma {:induction false} ParsedKinds(path: string)
    ensures ParseModulePath(path).Some? ==> !ParseModulePath(path).value.kind.Dbio?
  {
  }

  lemma {:induction false} ConfirmLists(t: Tree, p: Patterns, target: Ref, so: CallersResult, hits: seq<string>, n: Ref)
    requires Confirm(t, p, target, so, hits).Success?
    ensures Listed(Confirm(t, p, target, so, hits).value, n) <==>
            Listed(so, n) || exists i :: 0 <= i < |hits| && Judge(t, p, target, hits[i]) == Caller(n)
    decreases |hits|
  {
    if hits != [] {
      var verdict := Judge(t, p, target, hits[0]);
      var next := if verdict.Caller? then List(so, verdict.n) else so;
      ConfirmLists(t, p, target, next, hits[1..], n);
      ParsedKinds(hits[0]);
      if verdict.Caller? {
        ListedAfter(so, verdict.n, n);
      }
      assert forall i :: 1 <= i < |hits| ==> hits[i] == hits[1..][i - 1];
      assert (exists i :: 0 <= i < |hits| && Judge(t, p, target, hits[i]) == Caller(n)) <==>
             verdict == Caller(n) || exists i :: 0 <= i < |hits[1..]| && Judge(t, p, target, hits[1..][i]) == Caller(n);
    }
  }

  lemma {:induction false} ConfirmFails(t: Tree, p: Patterns, target: Ref, so: CallersResult, hits: seq<string>)
    ensures Confirm(t, p, target, so, hits).Failed? <==>
            exists i :: 0 <= i < |hits| && Judge(t, p, target, hits[i]).Broken?
    decreases |hits|
  {
    if hits != [] {
      var verdict := Judge(t, p, target, hits[0]);
      var next := if verdict.Caller? then List(so, verdict.n) else so;
      ConfirmFails(t, p, target, next, hits[1..]);
      assert forall i :: 1 <= i < |hits| ==> hits[i] == hits[1..][i - 1];
      assert (exists i :: 0 <= i < |hits| && Judge(t, p, target, hits[i]).Broken?) <==>
             verdict.Broken? || exists i :: 0 <= i < |hits[1..]| && Judge(t, p, target, hits[1..][i]).Broken?;
    }
  }

  function GrepFails(grep: Grep, id: string): string -> bool {
    (group: string) => grep(id, COMPILE_ROOT + "/" + group).Failed?
  }

  lemma {:induction false} GroupHitsExactly(grep: Grep, id: string, groups: seq<string>, path: string)
    ensures var hits := GroupHits(grep, id, groups);
            && (hits.Success? <==> forall g :: g in groups ==> grep(id, COMPILE_ROOT + "/" + g).Success?)
            && (hits.Success? ==>
                  (path in hits.value <==>
                   exists g :: g in groups && grep(id, COMPILE_ROOT + "/" + g).Success?
                               && path in grep(id, COMPILE_ROOT + "/" + g).value))
            && (hits.Failed? ==> exists i :: FirstWith(groups, i, GrepFails(grep, id)) &&
                                             grep(id, COMPILE_ROOT + "/" + groups[i]) == Failed(hits.error))
  {
    if groups != [] {
      var front, last := groups[..|groups| - 1], groups[|groups| - 1];
      assert groups == front + [last];
      GroupHitsExactly(grep, id, front, path);
      var before := GroupHits(grep, id, front);
      if before.Failed? {
        var i :| FirstWith(front, i, GrepFails(grep, id)) && grep(id, COMPILE_ROOT + "/" + front[i]) == before;
        assert groups[i] == front[i] && FirstWith(groups, i, GrepFails(grep, id));
      } else if grep(id, COMPILE_ROOT + "/" + last).Failed? {
        assert forall j :: 0 <= j < |front| ==> groups[j] == front[j] && front[j] in front;
        assert FirstWith(groups, |front|, GrepFails(grep, id));
      }
    }
  }

  /** With groups given, a candidate is what grep finds under one of them, and the first group whose grep fails decides;
      without, grep searches the whole tree. */
  lemma HitsExactly(grep: Grep, id: string, groups: seq<string>, path: string)
    ensures var hits := Hits(grep, id, groups);
            if groups == [] then hits == grep(id, COMPILE_ROOT)
            else
              && (hits.Success? <==> forall g :: g in groups ==> grep(id, COMPILE_ROOT + "/" + g).Success?)
              && (hits.Success? ==>
                    (path in hits.value <==>
                     exists g :: g in groups && grep(id, COMPILE_ROOT + "/" + g).Success?
                                 && path in grep(id, COMPILE_ROOT + "/" + g).value))
              && (hits.Failed? ==> exists i :: FirstWith(groups, i, GrepFails(grep, id)) &&
                                               grep(id, COMPILE_ROOT + "/" + groups[i]) == Failed(hits.error))
  {
    GroupHitsExactly(grep, id, groups, path);
  }

  /** A module source that is there but cannot be read. */
  function Unreadable(t: Tree): string -> bool {
    (path: string) => ParseModulePath(path).Some? && ReadFile(t, path).Failed? && ReadFile(t, path) != Failed(NotFound)
  }

  lemma {:induction false} FirstUnreadable(t: Tree, p: Patterns, target: Ref, so: CallersResult, hits: seq<string>)
    requires Confirm(t, p, target, so, hits).Failed?
    ensures exists i :: FirstWith(hits, i, Unreadable(t)) &&
                        ReadFile(t, hits[i]) == Failed(Confirm(t, p, target, so, hits).error)
    decreases |hits|
  {
    var verdict, error := Judge(t, p, target, hits[0]), Confirm(t, p, target, so, hits).error;
    if verdict.Broken? {
      assert FirstWith(hits, 0, Unreadable(t));
    } else {
      var next := if verdict.Caller? then List(so, verdict.n) else so;
      FirstUnreadable(t, p, target, next, hits[1..]);
      var i :| FirstWith(hits[1..], i, Unreadable(t)) && ReadFile(t, hits[1..][i]) == Failed(error);
      FirstWithAhead(hits, i, Unreadable(t));
    }
  }

  /** A failing search reports grep's failure, or that of the first candidate source that cannot be read. */
  lemma FailureExactly(t: Tree, p: Patterns, grep: Grep, target: Ref, groups: seq<string>)
    requires FoundCallers(t, p, grep, target, groups).Failed?
    ensures var hits, error := Hits(grep, Strip(target.id), groups), FoundCallers(t, p, grep, target, groups).error;
            hits == Failed(error) ||
            (hits.Success? && exists i :: FirstWith(hits.value, i, Unreadable(t)) &&
                                          ReadFile(t, hits.value[i]) == Failed(error))
  {
    var hits := Hits(grep, Strip(target.id), groups);
    if hits.Success? {
      FirstUnreadable(t, p, Ref(target.kind, Strip(target.id)), NO_CALLERS, hits.value);
    }
  }

  /** `path` is the source of module `n` and refers to `target`. */
  ghost predicate Confirmed(t: Tree, p: Patterns, target: Ref, path: string, n: Ref) {
    && ParseModulePath(path).Some? && Ref(ParseModulePath(path).value.kind, ParseModulePath(path).value.id) == n
    && ReadFile(t, path).Success? && target in ModuleRefs(p, ReadFile(t, path).value)
  }

  /** The search succeeds exactly when grep does and no candidate module is there but unreadable; then it lists
      exactly the modules with a candidate source that refers to the target, in ascending order, once each. */
  lemma CallersAreConfirmed(t: Tree, p: Patterns, grep: Grep, target: Ref, groups: seq<string>)
    ensures var wanted := Ref(target.kind, Strip(target.id));
            var hits := Hits(grep, wanted.id, groups);
            var found := FoundCallers(t, p, grep, target, groups);
            && (found.Success? <==>
                  hits.Success? && forall path :: path in hits.value && ParseModulePath(path).Some? ==>
                                     ReadFile(t, path).Success? || ReadFile(t, path) == Failed(NotFound))
            && (found.Success? ==> forall n :: Listed(found.value, n) <==>
                                     exists path :: path in hits.value && Confirmed(t, p, wanted, path, n))
            && (found.Success? ==> Ascending(found.value.services, LexLe) && Ascending(found.value.bizs, LexLe)
                                   && Ascending(found.value.batches, LexLe))
  {
    var wanted := Ref(target.kind, Strip(target.id));
    var hits := Hits(grep, wanted.id, groups);
    var found := FoundCallers(t, p, grep, target, groups);
    if hits.Success? {
      ConfirmFails(t, p, wanted, NO_CALLERS, hits.value);
      forall path | path in hits.value
        ensures Judge(t, p, wanted, path).Broken? <==>
                ParseModulePath(path).Some? && ReadFile(t, path).Failed? && ReadFile(t, path) != Failed(NotFound)
      {
      }
      if found.Success? {
        forall n
          ensures Listed(found.value, n) <==> exists path :: path in hits.value && Confirmed(t, p, wanted, path, n)
        {
          OneCaller(t, p, wanted, hits.value, n);
        }
      }
    }
  }

  lemma OneCaller(t: Tree, p: Patterns, wanted: Ref, hits: seq<string>, n: Ref)
    requires Confirm(t, p, wanted, NO_CALLERS, hits).Success?
    ensures Listed(Arranged(Confirm(t, p, wanted, NO_CALLERS, hits).value), n) <==>
            exists path :: path in hits && Confirmed(t, p, wanted, path, n)
  {
    var c := Confirm(t, p, wanted, NO_CALLERS, hits).value;
    ConfirmLists(t, p, wanted, NO_CALLERS, hits, n);
    ArrangedLists(c, n);
    if i :| 0 <= i < |hits| && Judge(t, p, wanted, hits[i]) == Caller(n) {
      assert hits[i] in hits && Confirmed(t, p, wanted, hits[i], n);
    }
    if path :| path in hits && Confirmed(t, p, wanted, path, n) {
      var i :| 0 <= i < |hits| && hits[i] == path;
      assert Judge(t, p, wanted, hits[i]) == Caller(n);
    }
  }

  lemma ArrangedLists(c: CallersResult, n: Ref)
    ensures Listed(Arranged(c), n) <==> Listed(c, n)
  {
    var a := Arranged(c);
    assert n.id in a.services <==> n.id in Elements(a.services);
    assert n.id in a.bizs <==> n.id in Elements(a.bizs);
    assert n.id in a.batches <==> n.id in Elements(a.batches);
  }
}
