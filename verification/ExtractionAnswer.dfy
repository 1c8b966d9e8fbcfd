/** What one extraction answers, read off its result alone. */
module ExtractionAnswer {
  import opened Texts
  import opened ProFrame
  import opened Extraction
  import opened BatchExtraction

  ghost predicate InResult(r: ExtractResult, n: Ref) {
    match n.kind
    case Dbio => n.id in r.dbios
    case Batch => n.id in r.batches
    case Service => n.id in r.services
    case Biz => n.id in r.bizs
  }

  /** Met during a run, `n` is reported: it is not excluded, and unless it is a batch its source or SQL is readable. */
  ghost predicate Reportable(q: Request, n: Ref) {
    && n.id !in q.excludedRefs
    && match n.kind
       case Batch => true
       case Dbio => n.id in q.corpus.dbios && q.corpus.dbios[n.id].Success?
       case _ => n in q.corpus.searched && q.corpus.searched[n].Found?
  }

  /** `n` has to be in the result: a service or biz entry itself, and whatever else is reached and reportable. */
  ghost predicate Due(q: Request, entry: Ref, start: seq<Ref>, n: Ref) {
    if n == entry then !n.kind.Batch? else Reached(q.corpus, q.excludedRefs, entry, start, n) && Reportable(q, n)
  }

  /** The result lists exactly what it has to. */
  ghost predicate Told(q: Request, entry: Ref, start: seq<Ref>, r: ExtractResult) {
    forall n :: InResult(r, n) <==> Due(q, entry, start, n)
  }

  /** The tables are those of the listed DBIOs, less the excluded ones. */
  ghost predicate TablesOfListed(q: Request, r: ExtractResult) {
    forall t :: t in r.tables <==>
      t !in q.excludedTables &&
      exists d :: d in r.dbios && d in q.corpus.dbios && q.corpus.dbios[d].Success? && t in q.corpus.dbios[d].value
  }

  ghost predicate Distinct(xs: seq<string>) {
    forall i, j :: 0 <= i < j < |xs| ==> xs[i] != xs[j]
  }

  lemma UsesExactly(c: Corpus, d: string, t: string)
    ensures UsesTable(c, d, t) <==> d in c.dbios && c.dbios[d].Success? && t in c.dbios[d].value
  {
  }

  lemma ReportMembers(q: Request, t: Totals)
    ensures var r := WithoutExcluded(q, Report(t));
            && r.dbios == t.dbios
            && (forall x :: x in r.tables <==> x in t.tables && x !in q.excludedTables)
            && (forall x :: (x in r.batches <==> x in t.batches) && (x in r.services <==> x in t.services)
                            && (x in r.bizs <==> x in t.bizs))
  {
    var r := Report(t);
    assert forall x :: x in r.tables <==> x in Elements(r.tables);
    assert forall x :: x in r.batches <==> x in Elements(r.batches);
    assert forall x :: x in r.services <==> x in Elements(r.services);
    assert forall x :: x in r.bizs <==> x in Elements(r.bizs);
  }

  lemma OutcomeAscends(q: Request, id: string)
    requires Outcome(q, id).Success?
    ensures ListsAscend(Outcome(q, id).value)
  {
    var t := if q.kind.Dbio? then NOTHING.(tables := TablesOfDbio(q.corpus, id).value, dbios := [id])
             else Total(q, id);
    ReportAscends(t);
    FilterAscends(Report(t).tables, Keep(q.excludedTables));
  }

  function Total(q: Request, id: string): Totals {
    var n := Ref(q.kind, id);
    ReadStaysInUniverse(q.corpus, n, q.group);
    Visit(n, Read(q.corpus, n, q.group), Sum(q.corpus, q.excludedRefs, Met(q, n)))
  }

  /** A service, biz or batch entry whose source is found: whatever it met, its tables are those of the DBIOs it lists,
      and the lists are exact precisely when no reference with something to report finds its ID taken. */
  lemma ModuleAnswer(q: Request, id: string, start: seq<Ref>)
    requires !q.kind.Dbio? && Read(q.corpus, Ref(q.kind, id), q.group) == Found(start)
    requires Ids(start) <= Universe(q.corpus)
    ensures Outcome(q, id).Success?
    ensures var entry, r := Ref(q.kind, id), Outcome(q, id).value;
            && TablesOfListed(q, r) && Distinct(r.dbios) && ListsAscend(r)
            && (Told(q, entry, start, r) <==>
                NoneIsTaken(q.corpus, q.excludedRefs, entry, start,
                            Preorder(q.corpus, q.excludedRefs, start, {id})))
  {
    var entry := Ref(q.kind, id);
    var order := Preorder(q.corpus, q.excludedRefs, start, {id});
    var below := Sum(q.corpus, q.excludedRefs, order);
    var t := Visit(entry, Found(start), below);
    assert Outcome(q, id) == Success(WithoutExcluded(q, Report(t)));
    OutcomeAscends(q, id);
    ReportMembers(q, t);
    VisitAdds(entry, start, below);
    SumCovers(q.corpus, q.excludedRefs, order);
    TablesAreOfListed(q, below, t);
    DbiosOnce(q, entry, start);
    ReportIsExactPrecisely(q.corpus, q.excludedRefs, entry, start);
    ToldIsExact(q, entry, start, t);
  }

  lemma TablesAreOfListed(q: Request, below: Totals, t: Totals)
    requires Covers(q.corpus, below) && t.tables == below.tables && t.dbios == below.dbios
    ensures TablesOfListed(q, WithoutExcluded(q, Report(t)))
  {
    ReportMembers(q, t);
    forall x ensures x in below.tables <==>
                     exists d :: d in t.dbios && d in q.corpus.dbios && q.corpus.dbios[d].Success?
                                 && x in q.corpus.dbios[d].value
    {
      forall d { UsesExactly(q.corpus, d, x); }
    }
  }

  lemma DbiosOnce(q: Request, entry: Ref, start: seq<Ref>)
    requires Ids(start) <= Universe(q.corpus)
    ensures Distinct(Sum(q.corpus, q.excludedRefs, Preorder(q.corpus, q.excludedRefs, start, {entry.id})).dbios)
  {
    var dbios := Sum(q.corpus, q.excludedRefs, Preorder(q.corpus, q.excludedRefs, start, {entry.id})).dbios;
    forall i, j | 0 <= i < j < |dbios| ensures dbios[i] != dbios[j] {
      var k, m := DbiosInFirstEncounterOrder(q.corpus, q.excludedRefs, entry, start, i, j);
    }
  }

  lemma DueExactly(q: Request, entry: Ref, start: seq<Ref>, n: Ref)
    requires !entry.kind.Dbio?
    ensures Due(q, entry, start, n) <==> Wanted(q.corpus, q.excludedRefs, entry, start, n)
  {
  }

  lemma ToldIsExact(q: Request, entry: Ref, start: seq<Ref>, t: Totals)
    requires !entry.kind.Dbio?
    ensures Told(q, entry, start, WithoutExcluded(q, Report(t))) <==> Exact(q.corpus, q.excludedRefs, entry, start, t)
  {
    var r := WithoutExcluded(q, Report(t));
    ReportMembers(q, t);
    forall n ensures InResult(r, n) <==> Lists(t, n) {
    }
    forall n { DueExactly(q, entry, start, n); }
    ExactExactly(q.corpus, q.excludedRefs, entry, start, t);
  }

  /** The DBIOs of the result stand in the order in which the depth-first search met them. */
  lemma DbiosInMetOrder(q: Request, id: string, start: seq<Ref>, i: nat, j: nat) returns (k: nat, m: nat)
    requires !q.kind.Dbio? && Read(q.corpus, Ref(q.kind, id), q.group) == Found(start)
    requires Ids(start) <= Universe(q.corpus)
    requires Outcome(q, id).Success? && i < j < |Outcome(q, id).value.dbios|
    ensures var order, dbios := Preorder(q.corpus, q.excludedRefs, start, {id}), Outcome(q, id).value.dbios;
            k < m < |order| && order[k] == Ref(Dbio, dbios[i]) && order[m] == Ref(Dbio, dbios[j])
  {
    OutcomeDbios(q, id, start);
    k, m := DbiosInFirstEncounterOrder(q.corpus, q.excludedRefs, Ref(q.kind, id), start, i, j);
  }

  lemma OutcomeDbios(q: Request, id: string, start: seq<Ref>)
    requires !q.kind.Dbio? && Read(q.corpus, Ref(q.kind, id), q.group) == Found(start)
    requires Ids(start) <= Universe(q.corpus)
    ensures Outcome(q, id).Success?
    ensures Outcome(q, id).value.dbios ==
            Sum(q.corpus, q.excludedRefs, Preorder(q.corpus, q.excludedRefs, start, {id})).dbios
  {
    var entry, below := Ref(q.kind, id), Sum(q.corpus, q.excludedRefs, Preorder(q.corpus, q.excludedRefs, start, {id}));
    var t := Visit(entry, Found(start), below);
    assert Outcome(q, id) == Success(WithoutExcluded(q, Report(t)));
    VisitAdds(entry, start, below);
    ReportMembers(q, t);
  }

  /** An entry whose source is not found, or cannot be read, fails with that failure. */
  lemma FailedAnswer(q: Request, id: string)
    requires !q.kind.Dbio?
    ensures Outcome(q, id).Failed? <==> Read(q.corpus, Ref(q.kind, id), q.group).Unreadable?
    ensures Outcome(q, id).Failed? ==> Outcome(q, id).error == Read(q.corpus, Ref(q.kind, id), q.group).error
  {
  }

  /** A DBIO entry lists itself and its tables less the excluded ones, excluded reference or not. */
  lemma DbioAnswer(q: Request, id: string)
    requires q.kind.Dbio?
    ensures Outcome(q, id).Failed? <==> id !in q.corpus.dbios || q.corpus.dbios[id].Failed?
    ensures Outcome(q, id).Failed? ==>
              Outcome(q, id).error == if id in q.corpus.dbios then q.corpus.dbios[id].error else NotFound
    ensures Outcome(q, id).Success? ==>
              var r := Outcome(q, id).value;
              && r.dbios == [id] && r.batches == [] && r.services == [] && r.bizs == []
              && Ascending(r.tables, LexLe)
              && forall t :: t in r.tables <==> t in q.corpus.dbios[id].value && t !in q.excludedTables
  {
    if Outcome(q, id).Success? {
      var t := NOTHING.(tables := TablesOfDbio(q.corpus, id).value, dbios := [id]);
      ReportMembers(q, t);
      OutcomeAscends(q, id);
      var r := Outcome(q, id).value;
      HasMember(r.batches);
      HasMember(r.services);
      HasMember(r.bizs);
    }
  }
}
