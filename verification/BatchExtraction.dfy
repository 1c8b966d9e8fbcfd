/** One-entry extraction with excluded tables, and its many-entry form with partial success. */
module BatchExtraction {
  import opened Texts
  import opened ProFrame
  import opened Extraction

  /** What a request fixes besides the entry ID. */
  datatype Request = Request(
    corpus: Corpus, excludedRefs: set<string>, excludedTables: set<string>, kind: Kind, group: Option<string>)

  function Keep(excluded: set<string>): string -> bool {
    (t: string) => t !in excluded
  }

  /** The references the extraction of `n` meets. */
  function Met(q: Request, n: Ref): seq<Ref>
    requires Ids(Refs(Read(q.corpus, n, q.group))) <= Universe(q.corpus)
  {
    Preorder(q.corpus, q.excludedRefs, Refs(Read(q.corpus, n, q.group)), {n.id})
  }

  lemma ReadStaysInUniverse(c: Corpus, n: Ref, group: Option<string>)
    ensures Ids(Refs(Read(c, n, group))) <= Universe(c)
  {
  }

  /** The outcome of extracting one ID, excluded tables already taken out. */
  function Outcome(q: Request, id: string): Result<ExtractResult> {
    var n := Ref(q.kind, id);
    if q.kind.Dbio? then
      var found := TablesOfDbio(q.corpus, id);
      if found.Failed? then Failed(found.error)
      else Success(WithoutExcluded(q, Report(NOTHING.(tables := found.value, dbios := [id]))))
    else
      var source := Read(q.corpus, n, q.group);
      ReadStaysInUniverse(q.corpus, n, q.group);
      if source.Unreadable? then Failed(source.error)
      else Success(WithoutExcluded(q, Report(Visit(n, source, Sum(q.corpus, q.excludedRefs, Met(q, n))))))
  }

  function WithoutExcluded(q: Request, r: ExtractResult): ExtractResult {
    r.(tables := Filter(r.tables, Keep(q.excludedTables)))
  }

  lemma FilterAscends(xs: seq<string>, keep: string -> bool)
    requires Ascending(xs, LexLe)
    ensures Ascending(Filter(xs, keep), LexLe)
  {
    var kept := Filter(xs, keep);
    forall i, j | 0 <= i < j < |kept| ensures LexLe(kept[i], kept[j]) && kept[i] != kept[j] {
      var k, m := FilterKeepsOrder(xs, keep, i, j);
    }
  }

  method Extract(q: Request, id: string) returns (result: Result<ExtractResult>)
    ensures result == Outcome(q, id)
    ensures result.Success? ==> ListsAscend(result.value)
  {
    var found: Result<ExtractResult>;
    if q.kind.Dbio? {
      var tables := TablesOfDbio(q.corpus, id);
      found := if tables.Failed? then Failed(tables.error)
               else Success(Report(NOTHING.(tables := tables.value, dbios := [id])));
      assert found.Success? ==> ListsAscend(found.value);
    } else {
      var run := new Extractor(q.corpus, q.excludedRefs);
      found := run.ExtractFromModule(Ref(q.kind, id), q.group, true);
      assert {} + {id} == {id};
    }
    if found.Failed? {
      return found;
    }
    FilterAscends(found.value.tables, Keep(q.excludedTables));
    result := Success(WithoutExcluded(q, found.value));
  }

  datatype FailedItem = FailedItem(id: string, error: Failure)

  datatype BatchResult = BatchResult(
    tables: seq<string>, dbios: seq<string>, batches: seq<string>, services: seq<string>, bizs: seq<string>,
    succeeded: seq<string>, failed: seq<FailedItem>)

  /** The IDs a batch request works through: trimmed, blanks dropped, repeats dropped. */
  function Cleaned(ids: seq<string>): seq<string> {
    Dedupe(Trimmed(ids))
  }

  function Trimmed(ids: seq<string>): (r: seq<string>)
    ensures "" !in r
  {
    if ids == [] then []
    else Trimmed(ids[..|ids| - 1]) + (if Strip(ids[|ids| - 1]) == "" then [] else [Strip(ids[|ids| - 1])])
  }

  /** `xs` followed by those of `more` that are not there yet. */
  function Merged(xs: seq<string>, more: seq<string>): seq<string> {
    if more == [] then xs
    else
      var m, last := Merged(xs, more[..|more| - 1]), more[|more| - 1];
      if last in m then m else m + [last]
  }

  /** The accumulators of a batch. */
  datatype Tally = Tally(
    tables: set<string>, dbios: seq<string>, batches: set<string>, services: set<string>, bizs: set<string>,
    succeeded: seq<string>, failed: seq<FailedItem>)

  function Counted(t: Tally, id: string, outcome: Result<ExtractResult>): Tally {
    match outcome
    case Failed(e) => t.(failed := t.failed + [FailedItem(id, e)])
    case Success(r) =>
      Tally(t.tables + Elements(r.tables), Merged(t.dbios, r.dbios), t.batches + Elements(r.batches),
            t.services + Elements(r.services), t.bizs + Elements(r.bizs), t.succeeded + [id], t.failed)
  }

  /** Extracting one ID, as a function of it. */
  type Run = string -> Result<ExtractResult>

  function OutcomeOf(q: Request): Run {
    (id: string) => Outcome(q, id)
  }

  function Tallied(run: Run, ids: seq<string>): Tally {
    if ids == [] then Tally({}, [], {}, {}, {}, [], [])
    else Counted(Tallied(run, ids[..|ids| - 1]), ids[|ids| - 1], run(ids[|ids| - 1]))
  }

  function BatchReport(t: Tally): BatchResult {
    BatchResult(SortedTexts(t.tables), t.dbios, SortedTexts(t.batches), SortedTexts(t.services), SortedTexts(t.bizs),
                t.succeeded, t.failed)
  }

  lemma TrimmedSnoc(ids: seq<string>, i: nat)
    requires i < |ids|
    ensures Strip(ids[i]) == "" ==> Trimmed(ids[..i + 1]) == Trimmed(ids[..i])
    ensures Strip(ids[i]) != "" ==> Trimmed(ids[..i + 1]) == Trimmed(ids[..i]) + [Strip(ids[i])]
  {
    assert ids[..i + 1][..i] == ids[..i];
  }

  /** `id` was given, with white space around it or not. */
  ghost predicate Given(raw: seq<string>, id: string) {
    id != "" && exists k :: 0 <= k < |raw| && Strip(raw[k]) == id
  }

  /** `a` was given before `b` was, the first time. */
  ghost predicate Earlier(raw: seq<string>, a: string, b: string) {
    exists k :: 0 <= k < |raw| && Strip(raw[k]) == a && forall l :: 0 <= l < |raw| && Strip(raw[l]) == b ==> k < l
  }

  /** `ids` stand in the order in which they were first given, so none stands there twice. */
  ghost predicate InGivenOrder(raw: seq<string>, ids: seq<string>) {
    forall i, j :: 0 <= i < j < |ids| ==> Earlier(raw, ids[i], ids[j]) && ids[i] != ids[j]
  }

  lemma GivenSnoc(raw: seq<string>, last: string, id: string)
    ensures Given(raw + [last], id) <==> Given(raw, id) || (id != "" && Strip(last) == id)
  {
    var all := raw + [last];
    if Given(raw, id) {
      var k :| 0 <= k < |raw| && Strip(raw[k]) == id;
      assert all[k] == raw[k];
    }
    assert all[|raw|] == last;
  }

  lemma EarlierGrows(raw: seq<string>, last: string, a: string, b: string)
    requires Earlier(raw, a, b)
    ensures Earlier(raw + [last], a, b)
  {
    var all := raw + [last];
    var k :| 0 <= k < |raw| && Strip(raw[k]) == a && forall l :: 0 <= l < |raw| && Strip(raw[l]) == b ==> k < l;
    assert all[k] == raw[k];
  }

  lemma CleanedSnoc(raw: seq<string>, last: string)
    ensures Cleaned(raw + [last]) ==
            if Strip(last) == "" || Strip(last) in Cleaned(raw) then Cleaned(raw) else Cleaned(raw) + [Strip(last)]
  {
    var all := raw + [last];
    assert all[..|raw|] == raw && all[..|raw| + 1] == all;
    TrimmedSnoc(all, |raw|);
    DedupeSnoc(Trimmed(raw), Strip(last));
  }

  /** The IDs worked through are those given, blanks aside, once each, where they were first given. */
  lemma {:induction false} CleanedExactly(raw: seq<string>)
    ensures (forall id :: id in Cleaned(raw) <==> Given(raw, id)) && InGivenOrder(raw, Cleaned(raw))
    decreases |raw|
  {
    if raw != [] {
      var front, last := raw[..|raw| - 1], raw[|raw| - 1];
      assert raw == front + [last];
      CleanedExactly(front);
      CleanedSnoc(front, last);
      forall id ensures id in Cleaned(raw) <==> Given(raw, id) {
        GivenSnoc(front, last, id);
      }
      var ids, before := Cleaned(raw), Cleaned(front);
      forall i, j | 0 <= i < j < |ids| ensures Earlier(raw, ids[i], ids[j]) && ids[i] != ids[j] {
        assert ids[i] == before[i] && before[i] in before;
        if j < |before| {
          assert ids[j] == before[j];
        } else {
          assert Given(front, ids[i]) && !Given(front, ids[j]);
        }
        EarlierGrows(front, last, ids[i], ids[j]);
      }
    }
  }

  method Clean(ids: seq<string>) returns (cleaned: seq<string>)
    ensures cleaned == Cleaned(ids)
    ensures forall id :: id in cleaned <==> Given(ids, id)
    ensures InGivenOrder(ids, cleaned)
  {
    var seen: set<string> := {};
    cleaned := [];
    for i := 0 to |ids|
      invariant cleaned == Dedupe(Trimmed(ids[..i]))
      invariant forall x :: x in seen <==> x in cleaned
    {
      var id := Strip(ids[i]);
      TrimmedSnoc(ids, i);
      if id == "" {
        continue;
      }
      DedupeSnoc(Trimmed(ids[..i]), id);
      if id in seen {
        continue;
      }
      seen := seen + {id};
      cleaned := cleaned + [id];
    }
    assert ids[..|ids|] == ids;
    CleanedExactly(ids);
  }

  /** Append the DBIOs of one result that are not listed yet. */
  method Merge(dbios: seq<string>, more: seq<string>) returns (merged: seq<string>)
    ensures merged == Merged(dbios, more)
  {
    merged := dbios;
    for j := 0 to |more|
      invariant merged == Merged(dbios, more[..j])
    {
      assert more[..j + 1][..j] == more[..j];
      if more[j] !in merged {
        merged := merged + [more[j]];
      }
    }
    assert more[..|more|] == more;
  }

  method ExtractBatch(q: Request, ids: seq<string>) returns (result: BatchResult)
    ensures result == BatchReport(Tallied(OutcomeOf(q), Cleaned(ids)))
    ensures Answers(OutcomeOf(q), ids, result)
  {
    ghost var run := OutcomeOf(q);
    var cleaned := Clean(ids);
    var tables: set<string>, batches: set<string>, services: set<string>, bizs: set<string> := {}, {}, {}, {};
    var dbios: seq<string>, succeeded: seq<string>, failed: seq<FailedItem> := [], [], [];
    for i := 0 to |cleaned|
      invariant Tally(tables, dbios, batches, services, bizs, succeeded, failed) == Tallied(run, cleaned[..i])
    {
      assert cleaned[..i + 1][..i] == cleaned[..i];
      var outcome := Extract(q, cleaned[i]);
      if outcome.Failed? {
        failed := failed + [FailedItem(cleaned[i], outcome.error)];
        continue;
      }
      var r := outcome.value;
      succeeded := succeeded + [cleaned[i]];
      tables := tables + Elements(r.tables);
      dbios := Merge(dbios, r.dbios);
      batches := batches + Elements(r.batches);
      services := services + Elements(r.services);
      bizs := bizs + Elements(r.bizs);
    }
    assert cleaned[..|cleaned|] == cleaned;
    result := BatchReport(Tally(tables, dbios, batches, services, bizs, succeeded, failed));
    BatchAnswers(run, ids);
  }

  // ----- What a batch means -----

  function Works(run: Run): string -> bool {
    (id: string) => run(id).Success?
  }

  function Fails(run: Run): string -> bool {
    (id: string) => run(id).Failed?
  }

  function FailedIds(items: seq<FailedItem>): seq<string> {
    if items == [] then [] else FailedIds(items[..|items| - 1]) + [items[|items| - 1].id]
  }

  lemma {:induction false} SucceededIsFilter(run: Run, ids: seq<string>)
    ensures Tallied(run, ids).succeeded == Filter(ids, Works(run))
  {
    if ids != [] {
      var front, last := ids[..|ids| - 1], ids[|ids| - 1];
      SucceededIsFilter(run, front);
      assert ids == front + [last];
      FilterSnoc(front, last, Works(run));
    }
  }

  lemma {:induction false} FailedIsFilter(run: Run, ids: seq<string>)
    ensures FailedIds(Tallied(run, ids).failed) == Filter(ids, Fails(run))
  {
    if ids != [] {
      var front, last := ids[..|ids| - 1], ids[|ids| - 1];
      FailedIsFilter(run, front);
      assert ids == front + [last];
      FilterSnoc(front, last, Fails(run));
      var f := Tallied(run, front).failed;
      if run(last).Failed? {
        assert (f + [FailedItem(last, run(last).error)])[..|f|] == f;
      }
    }
  }

  lemma {:induction false} FailuresKeepTheirError(run: Run, ids: seq<string>)
    ensures forall item :: item in Tallied(run, ids).failed ==> run(item.id) == Failed(item.error)
  {
    if ids != [] {
      FailuresKeepTheirError(run, ids[..|ids| - 1]);
    }
  }

  /** Succeeded and failed interleave to the IDs worked through: two complementary filters of them. */
  lemma SucceededAndFailedInterleave(run: Run, ids: seq<string>)
    ensures Tallied(run, ids).succeeded == Filter(ids, Works(run))
    ensures FailedIds(Tallied(run, ids).failed) == Filter(ids, Fails(run))
    ensures forall id :: Works(run)(id) != Fails(run)(id)
    ensures forall item :: item in Tallied(run, ids).failed ==> run(item.id) == Failed(item.error)
  {
    SucceededIsFilter(run, ids);
    FailedIsFilter(run, ids);
    FailuresKeepTheirError(run, ids);
  }

  /** The union, over the successful IDs among `ids`, of one list of their results. */
  ghost function Union(run: Run, ids: set<string>, part: ExtractResult -> seq<string>): set<string> {
    set id, x | id in ids && run(id).Success? && x in part(run(id).value) :: x
  }

  lemma UnionGrows(run: Run, ids: set<string>, id: string, part: ExtractResult -> seq<string>)
    ensures Union(run, ids + {id}, part) ==
            Union(run, ids, part) + (if run(id).Success? then Elements(part(run(id).value)) else {})
  {
  }

  ghost function Tables(): ExtractResult -> seq<string> { (r: ExtractResult) => r.tables }
  ghost function Dbios(): ExtractResult -> seq<string> { (r: ExtractResult) => r.dbios }
  ghost function Batches(): ExtractResult -> seq<string> { (r: ExtractResult) => r.batches }
  ghost function Services(): ExtractResult -> seq<string> { (r: ExtractResult) => r.services }
  ghost function Bizs(): ExtractResult -> seq<string> { (r: ExtractResult) => r.bizs }

  lemma {:induction false} MergedMembers(xs: seq<string>, more: seq<string>)
    ensures Elements(Merged(xs, more)) == Elements(xs) + Elements(more)
    ensures xs <= Merged(xs, more)
    ensures (forall i, j :: 0 <= i < j < |xs| ==> xs[i] != xs[j]) ==>
              forall i, j :: 0 <= i < j < |Merged(xs, more)| ==> Merged(xs, more)[i] != Merged(xs, more)[j]
  {
    if more != [] {
      var front, last := more[..|more| - 1], more[|more| - 1];
      MergedMembers(xs, front);
      assert more == front + [last];
      ElementsOfConcat(front, [last]);
      ElementsOfConcat(Merged(xs, front), [last]);
      assert last in Merged(xs, front) <==> last in Elements(Merged(xs, front));
    }
  }

  lemma ElementsSnoc(ids: seq<string>)
    requires ids != []
    ensures Elements(ids) == Elements(ids[..|ids| - 1]) + {ids[|ids| - 1]}
  {
    assert ids == ids[..|ids| - 1] + [ids[|ids| - 1]];
  }

  lemma {:induction false} SetsAreUnions(run: Run, ids: seq<string>)
    ensures var t := Tallied(run, ids);
            && t.tables == Union(run, Elements(ids), Tables()) && t.batches == Union(run, Elements(ids), Batches())
            && t.services == Union(run, Elements(ids), Services()) && t.bizs == Union(run, Elements(ids), Bizs())
  {
    if ids != [] {
      var front, last := ids[..|ids| - 1], ids[|ids| - 1];
      SetsAreUnions(run, front);
      ElementsSnoc(ids);
      UnionGrows(run, Elements(front), last, Tables());
      UnionGrows(run, Elements(front), last, Batches());
      UnionGrows(run, Elements(front), last, Services());
      UnionGrows(run, Elements(front), last, Bizs());
    }
  }

  lemma {:induction false} DbiosAreUnion(run: Run, ids: seq<string>)
    ensures var t := Tallied(run, ids);
            && Elements(t.dbios) == Union(run, Elements(ids), Dbios())
            && (forall i, j :: 0 <= i < j < |t.dbios| ==> t.dbios[i] != t.dbios[j])
  {
    if ids != [] {
      var front, last := ids[..|ids| - 1], ids[|ids| - 1];
      DbiosAreUnion(run, front);
      ElementsSnoc(ids);
      UnionGrows(run, Elements(front), last, Dbios());
      if run(last).Success? {
        MergedMembers(Tallied(run, front).dbios, run(last).value.dbios);
      }
    }
  }

  /** The DBIO lists of the successful results, one after the other. */
  function AllDbios(run: Run, ids: seq<string>): seq<string> {
    if ids == [] then []
    else
      var last := run(ids[|ids| - 1]);
      AllDbios(run, ids[..|ids| - 1]) + (if last.Success? then last.value.dbios else [])
  }

  lemma {:induction false} MergingDedupes(a: seq<string>, b: seq<string>)
    ensures Merged(Dedupe(a), b) == Dedupe(a + b)
  {
    if b == [] {
      assert a + b == a;
    } else {
      var front, last := b[..|b| - 1], b[|b| - 1];
      MergingDedupes(a, front);
      assert a + b == (a + front) + [last];
      DedupeSnoc(a + front, last);
    }
  }

  /** A batch lists DBIOs once each, where they first occur in the successful results taken in input order. */
  lemma {:induction false} DbiosInFirstOccurrenceOrder(run: Run, ids: seq<string>)
    ensures Tallied(run, ids).dbios == Dedupe(AllDbios(run, ids))
  {
    if ids != [] {
      var front, last := ids[..|ids| - 1], run(ids[|ids| - 1]);
      DbiosInFirstOccurrenceOrder(run, front);
      if last.Success? {
        MergingDedupes(AllDbios(run, front), last.value.dbios);
      } else {
        assert AllDbios(run, front) + [] == AllDbios(run, front);
      }
    }
  }

  /** Every list of a batch is the union of the successful single results; DBIOs are listed once each. */
  lemma BatchIsUnion(run: Run, ids: seq<string>)
    ensures var t := Tallied(run, ids);
            && t.tables == Union(run, Elements(ids), Tables())
            && Elements(t.dbios) == Union(run, Elements(ids), Dbios())
            && t.batches == Union(run, Elements(ids), Batches())
            && t.services == Union(run, Elements(ids), Services()) && t.bizs == Union(run, Elements(ids), Bizs())
            && (forall i, j :: 0 <= i < j < |t.dbios| ==> t.dbios[i] != t.dbios[j])
  {
    SetsAreUnions(run, ids);
    DbiosAreUnion(run, ids);
  }

  /** Some successful run on an ID of `ids` lists `x` in that part. */
  ghost predicate SomeRunLists(run: Run, ids: seq<string>, part: ExtractResult -> seq<string>, x: string) {
    exists id :: id in ids && run(id).Success? && x in part(run(id).value)
  }

  /** What a batch answers on IDs as given: each one, blanks aside, once among the succeeded or the failed ones, in the
      order given, a failed one with its own error; and what the successful runs list, sorted but for the DBIOs. */
  ghost predicate Answers(run: Run, raw: seq<string>, r: BatchResult) {
    && (forall id :: id in r.succeeded <==> Given(raw, id) && run(id).Success?)
    && (forall item :: item in r.failed <==> Given(raw, item.id) && run(item.id) == Failed(item.error))
    && InGivenOrder(raw, r.succeeded)
    && (forall i, j :: 0 <= i < j < |r.failed| ==>
          Earlier(raw, r.failed[i].id, r.failed[j].id) && r.failed[i].id != r.failed[j].id)
    && (forall x :: x in r.tables <==> SomeRunLists(run, r.succeeded, Tables(), x))
    && (forall x :: x in r.dbios <==> SomeRunLists(run, r.succeeded, Dbios(), x))
    && (forall x :: x in r.batches <==> SomeRunLists(run, r.succeeded, Batches(), x))
    && (forall x :: x in r.services <==> SomeRunLists(run, r.succeeded, Services(), x))
    && (forall x :: x in r.bizs <==> SomeRunLists(run, r.succeeded, Bizs(), x))
    && Ascending(r.tables, LexLe) && Ascending(r.batches, LexLe)
    && Ascending(r.services, LexLe) && Ascending(r.bizs, LexLe)
    && (forall i, j :: 0 <= i < j < |r.dbios| ==> r.dbios[i] != r.dbios[j])
  }

  lemma FilteredInOrder(raw: seq<string>, ids: seq<string>, keep: string -> bool)
    requires InGivenOrder(raw, ids)
    ensures InGivenOrder(raw, Filter(ids, keep))
  {
    var kept := Filter(ids, keep);
    forall i, j | 0 <= i < j < |kept| ensures Earlier(raw, kept[i], kept[j]) && kept[i] != kept[j] {
      var k, m := FilterKeepsOrder(ids, keep, i, j);
    }
  }

  lemma {:induction false} FailedCount(items: seq<FailedItem>)
    ensures |FailedIds(items)| == |items|
  {
    if items != [] {
      FailedCount(items[..|items| - 1]);
    }
  }

  lemma {:induction false} FailedIdAt(items: seq<FailedItem>, i: nat)
    requires i < |items|
    ensures |FailedIds(items)| == |items| && FailedIds(items)[i] == items[i].id
  {
    FailedCount(items);
    if i < |items| - 1 {
      FailedIdAt(items[..|items| - 1], i);
    } else {
      FailedCount(items[..i]);
    }
  }

  lemma UnionMembers(run: Run, ids: seq<string>, some: seq<string>, part: ExtractResult -> seq<string>)
    requires some == Filter(ids, Works(run))
    ensures forall x :: x in Union(run, Elements(ids), part) <==> SomeRunLists(run, some, part, x)
  {
    forall x ensures x in Union(run, Elements(ids), part) <==> SomeRunLists(run, some, part, x) {
      if x in Union(run, Elements(ids), part) {
        var id :| id in ids && run(id).Success? && x in part(run(id).value);
        assert Works(run)(id) && id in some;
      }
      if SomeRunLists(run, some, part, x) {
        var id :| id in some && run(id).Success? && x in part(run(id).value);
        assert id in Elements(ids);
      }
    }
  }

  lemma FailedExactly(run: Run, raw: seq<string>)
    ensures var failed := Tallied(run, Cleaned(raw)).failed;
            && (forall item :: item in failed <==> Given(raw, item.id) && run(item.id) == Failed(item.error))
            && (forall i, j :: 0 <= i < j < |failed| ==>
                  Earlier(raw, failed[i].id, failed[j].id) && failed[i].id != failed[j].id)
  {
    var ids := Cleaned(raw);
    var failed := Tallied(run, ids).failed;
    CleanedExactly(raw);
    SucceededAndFailedInterleave(run, ids);
    FilteredInOrder(raw, ids, Fails(run));
    forall item ensures item in failed <==> Given(raw, item.id) && run(item.id) == Failed(item.error) {
      if item in failed {
        var i :| 0 <= i < |failed| && failed[i] == item;
        FailedIdAt(failed, i);
        assert FailedIds(failed)[i] in Filter(ids, Fails(run));
      }
      if Given(raw, item.id) && run(item.id) == Failed(item.error) {
        assert Fails(run)(item.id) && item.id in FailedIds(failed);
        FailedCount(failed);
        var i :| 0 <= i < |FailedIds(failed)| && FailedIds(failed)[i] == item.id;
        FailedIdAt(failed, i);
        assert failed[i] in failed && failed[i] == item;
      }
    }
    forall i, j | 0 <= i < j < |failed|
      ensures Earlier(raw, failed[i].id, failed[j].id) && failed[i].id != failed[j].id
    {
      FailedIdAt(failed, i);
      FailedIdAt(failed, j);
    }
  }

  lemma BatchAnswers(run: Run, raw: seq<string>)
    ensures Answers(run, raw, BatchReport(Tallied(run, Cleaned(raw))))
  {
    var ids := Cleaned(raw);
    var t := Tallied(run, ids);
    CleanedExactly(raw);
    SucceededAndFailedInterleave(run, ids);
    FilteredInOrder(raw, ids, Works(run));
    FailedExactly(run, raw);
    BatchIsUnion(run, ids);
    UnionMembers(run, ids, t.succeeded, Tables());
    UnionMembers(run, ids, t.succeeded, Dbios());
    UnionMembers(run, ids, t.succeeded, Batches());
    UnionMembers(run, ids, t.succeeded, Services());
    UnionMembers(run, ids, t.succeeded, Bizs());
    ReportListsTotals(t);
  }

  lemma ReportListsTotals(t: Tally)
    ensures var r := BatchReport(t);
            forall x :: (x in r.tables <==> x in t.tables) && (x in r.batches <==> x in t.batches)
                        && (x in r.services <==> x in t.services) && (x in r.bizs <==> x in t.bizs)
                        && (x in r.dbios <==> x in Elements(t.dbios))
  {
    var r := BatchReport(t);
    assert Elements(r.tables) == t.tables && Elements(r.batches) == t.batches;
    assert Elements(r.services) == t.services && Elements(r.bizs) == t.bizs;
  }

  /** Reordering, repeating or padding the input changes no reported list except in order. */
  lemma OrderIsIrrelevant(run: Run, a: seq<string>, b: seq<string>)
    requires forall id :: Given(a, id) <==> Given(b, id)
    ensures var x, y := Tallied(run, Cleaned(a)), Tallied(run, Cleaned(b));
            && BatchReport(x).tables == BatchReport(y).tables && BatchReport(x).batches == BatchReport(y).batches
            && BatchReport(x).services == BatchReport(y).services && BatchReport(x).bizs == BatchReport(y).bizs
            && Elements(x.dbios) == Elements(y.dbios) && Elements(x.succeeded) == Elements(y.succeeded)
            && Elements(FailedIds(x.failed)) == Elements(FailedIds(y.failed))
  {
    BatchIsUnion(run, Cleaned(a));
    BatchIsUnion(run, Cleaned(b));
    SucceededAndFailedInterleave(run, Cleaned(a));
    SucceededAndFailedInterleave(run, Cleaned(b));
    CleanedExactly(a);
    CleanedExactly(b);
    SameElements(Cleaned(a), Cleaned(b));
  }

  lemma SameElements(a: seq<string>, b: seq<string>)
    requires forall x :: x in a <==> x in b
    ensures Elements(a) == Elements(b)
    ensures forall keep: string -> bool :: Elements(Filter(a, keep)) == Elements(Filter(b, keep))
  {
  }

  lemma TableComesFromARun(run: Run, ids: seq<string>, table: string)
    ensures table in Tallied(run, ids).tables <==>
            exists id :: id in ids && run(id).Success? && table in run(id).value.tables
  {
    BatchIsUnion(run, ids);
    assert forall id :: id in ids <==> id in Elements(ids);
  }

  /** A batch of modules is multi-source reachability: a table is listed exactly when it is not an
      excluded table and some readable DBIO using it is reached from some successful entry. */
  lemma BatchReachability(q: Request, ids: seq<string>, table: string)
    requires !q.kind.Dbio?
    requires forall id :: id in ids ==>
               OneKindPerId(q.corpus, q.excludedRefs, Ref(q.kind, id), Refs(Read(q.corpus, Ref(q.kind, id), q.group)))
    ensures table in Tallied(OutcomeOf(q), ids).tables <==> exists id :: id in ids && ReachesTable(q, id, table)
  {
    TableComesFromARun(OutcomeOf(q), ids, table);
    forall id | id in ids
      ensures OutcomeOf(q)(id).Success? && table in OutcomeOf(q)(id).value.tables <==> ReachesTable(q, id, table)
    {
      OutcomeReachability(q, id, table);
    }
  }

  ghost predicate ReachesTable(q: Request, id: string, table: string) {
    table !in q.excludedTables && exists d :: ReachesDbio(q, id, d) && UsesTable(q.corpus, d, table)
  }

  /** DBIO `d` is readable and reached from entry `id`, whose own source is readable. */
  ghost predicate ReachesDbio(q: Request, id: string, d: string) {
    var source := Read(q.corpus, Ref(q.kind, id), q.group);
    && source.Found?
    && Reached(q.corpus, q.excludedRefs, Ref(q.kind, id), Refs(source), Ref(Dbio, d))
    && ReadableDbio(q.corpus, q.excludedRefs, Ref(Dbio, d))
  }

  lemma OutcomeReachability(q: Request, id: string, table: string)
    requires !q.kind.Dbio?
    requires OneKindPerId(q.corpus, q.excludedRefs, Ref(q.kind, id), Refs(Read(q.corpus, Ref(q.kind, id), q.group)))
    ensures Outcome(q, id).Success? && table in Outcome(q, id).value.tables <==> ReachesTable(q, id, table)
  {
    var n := Ref(q.kind, id);
    var source := Read(q.corpus, n, q.group);
    if source.Unreadable? {
      return;
    }
    ReadStaysInUniverse(q.corpus, n, q.group);
    ReportIsExact(q.corpus, q.excludedRefs, n, source.refs);
    var t := Visit(n, source, Sum(q.corpus, q.excludedRefs, Met(q, n)));
    assert table in SortedTexts(t.tables) <==> table in Elements(SortedTexts(t.tables));
    if source.Found? {
      forall d ensures d in t.dbios <==> ReachesDbio(q, id, d) {
      }
    }
  }
}
