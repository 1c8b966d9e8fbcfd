/** The totals above the caller tree across searches: replies are counted whichever search they belong to. */
module SearchTotals {
  import opened Texts
  import opened ProFrame
  import opened Callers

  /** The searches so far, the requests under way with the search that made them, and the modules counted, each with the
      search whose request named it. */
  datatype Page = Page(search: nat, next: nat, pending: map<nat, nat>, counted: set<(Ref, nat)>)

  const FIRST := Page(0, 0, map[], {})

  /** A request goes out; its reply arrives or it fails; a new search begins. */
  datatype Event = Ask | Reply(id: nat, answer: Option<CallersResult>) | Search

  function Named(c: CallersResult): set<Ref> {
    (set id | id in c.services :: Ref(Service, id)) +
    (set id | id in c.bizs :: Ref(Biz, id)) +
    (set id | id in c.batches :: Ref(Batch, id))
  }

  function Counted(c: CallersResult, search: nat): set<(Ref, nat)> {
    set n | n in Named(c) :: (n, search)
  }

  function Step(p: Page, e: Event): Page {
    match e
    case Ask => p.(next := p.next + 1, pending := p.pending[p.next := p.search])
    case Reply(id, answer) =>
      if id !in p.pending then p
      else
        p.(pending := p.pending - {id},
           counted := if answer.None? then p.counted else p.counted + Counted(answer.value, p.pending[id]))
    case Search => p.(search := p.search + 1, counted := {})
  }

  function Run(p: Page, events: seq<Event>): Page {
    if events == [] then p else Step(Run(p, events[..|events| - 1]), events[|events| - 1])
  }

  /** Nothing asked for before search `limit` is counted. */
  ghost predicate OnlySince(p: Page, limit: nat) {
    forall c :: c in p.counted ==> c.1 >= limit
  }

  ghost predicate AskedSince(p: Page, limit: nat) {
    p.search >= limit && forall id :: id in p.pending ==> p.pending[id] >= limit
  }

  lemma StepStaysSince(p: Page, e: Event, limit: nat)
    requires OnlySince(p, limit) && AskedSince(p, limit)
    ensures OnlySince(Step(p, e), limit) && AskedSince(Step(p, e), limit)
  {
  }

  lemma {:induction false} RunStaysSince(p: Page, events: seq<Event>, limit: nat)
    requires OnlySince(p, limit) && AskedSince(p, limit)
    ensures OnlySince(Run(p, events), limit) && AskedSince(Run(p, events), limit)
  {
    if events != [] {
      RunStaysSince(p, events[..|events| - 1], limit);
      StepStaysSince(Run(p, events[..|events| - 1]), events[|events| - 1], limit);
    }
  }

  ghost predicate PendingAreOlder(p: Page) {
    forall id :: id in p.pending ==> p.pending[id] <= p.search
  }

  lemma StepKeepsOlder(p: Page, e: Event)
    requires PendingAreOlder(p)
    ensures PendingAreOlder(Step(p, e))
  {
  }

  lemma {:induction false} EveryRunKeepsOlder(events: seq<Event>)
    ensures PendingAreOlder(Run(FIRST, events))
  {
    if events != [] {
      EveryRunKeepsOlder(events[..|events| - 1]);
      StepKeepsOlder(Run(FIRST, events[..|events| - 1]), events[|events| - 1]);
    }
  }

  /** A new search counts only what it asks for itself, whatever happens then, exactly when no request is under way when
      it begins. */
  lemma NewSearchIsCleanExactly(events: seq<Event>)
    ensures var p := Run(FIRST, events);
            (forall more :: OnlySince(Run(Step(p, Search), more), p.search + 1)) <==> p.pending == map[]
  {
    var p := Run(FIRST, events);
    var begun := Step(p, Search);
    EveryRunKeepsOlder(events);
    if p.pending == map[] {
      forall more ensures OnlySince(Run(begun, more), p.search + 1) {
        RunStaysSince(begun, more, p.search + 1);
      }
    } else {
      assert exists id :: id in p.pending;
      var id :| id in p.pending;
      LateReplyCounts(begun, id);
    }
  }

  lemma LateReplyCounts(p: Page, id: nat)
    requires id in p.pending && p.pending[id] < p.search
    ensures !OnlySince(Run(p, [Reply(id, Some(CallersResult(["S"], [], [])))]), p.search)
  {
    var e := Reply(id, Some(CallersResult(["S"], [], [])));
    assert [e][..0] == [] && Run(p, [e]) == Step(p, e);
    assert Ref(Service, "S") in Named(e.answer.value);
    assert (Ref(Service, "S"), p.pending[id]) in Step(p, e).counted;
  }

  /** A run in which it fails: something is asked, a new search begins, and then the reply comes. */
  lemma OldReplyExample(c: CallersResult, n: Ref)
    requires n in Named(c)
    ensures (n, 0) in Run(FIRST, [Ask, Search, Reply(0, Some(c))]).counted
  {
    var events := [Ask, Search, Reply(0, Some(c))];
    assert events[..2] == [Ask, Search] && [Ask, Search][..1] == [Ask] && [Ask][..0] == [];
    assert Run(FIRST, [Ask]) == Step(FIRST, Ask);
    assert Run(FIRST, [Ask, Search]) == Step(Step(FIRST, Ask), Search);
  }
}
