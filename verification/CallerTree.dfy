/** The caller tree on screen: a root whose callers are shown when it is opened, and so on through the bizs. */
module CallerTree {
  import opened Texts
  import opened ProFrame
  import opened Callers

  /** What asking for the callers of a module answers; a module without an entry has none. */
  type Answers = map<Ref, CallersResult>

  function CallersOf(m: Answers, n: Ref): CallersResult {
    if n in m then m[n] else NO_CALLERS
  }

  /** Every biz that some answer names: what bounds the tree. */
  function Bizs(m: Answers): set<Ref> {
    set n, id | n in m && id in m[n].bizs :: Ref(Biz, id)
  }

  /** An item stands for the chain of modules opened to get to it, itself included. */
  type Item = p: seq<Ref> | p != [] witness [Ref(Dbio, "")]

  function Last(item: Item): Ref {
    item[|item| - 1]
  }

  /** The bizs shown under an opened item: the callers that are not in its chain. */
  function Visible(item: Item): string -> bool {
    (id: string) => Ref(Biz, id) !in item
  }

  function ItemsFor(item: Item, ids: seq<string>): set<Item> {
    set id | id in ids && Visible(item)(id) :: item + [Ref(Biz, id)]
  }

  function Under(m: Answers, item: Item): set<Item> {
    ItemsFor(item, CallersOf(m, Last(item)).bizs)
  }

  /** All items that opening everything, from `item` on, brings up. */
  function Tree(m: Answers, item: Item): set<Item>
    decreases Bizs(m) - Elements(item)
  {
    {item} + (set id, q | id in CallersOf(m, Last(item)).bizs && Visible(item)(id) && q in Branch(m, item, id) :: q)
  }

  function Branch(m: Answers, item: Item, id: string): set<Item>
    requires id in CallersOf(m, Last(item)).bizs && Visible(item)(id)
    decreases Bizs(m) - Elements(item), 0
  {
    assert Ref(Biz, id) in Bizs(m) && Ref(Biz, id) in Elements(item + [Ref(Biz, id)]);
    assert forall n :: n in Elements(item) ==> n in Elements(item + [Ref(Biz, id)]);
    Tree(m, item + [Ref(Biz, id)])
  }

  /** Everything below several roots. */
  function Forest(m: Answers, roots: set<Ref>): set<Item> {
    set r, q | r in roots && q in Tree(m, [r]) :: q
  }

  // ----- Chains of callers -----

  ghost predicate Chain(m: Answers, q: seq<Ref>) {
    forall i :: 0 < i < |q| ==> q[i].kind.Biz? && q[i].id in CallersOf(m, q[i - 1]).bizs
  }

  ghost predicate NoRepeats(q: seq<Ref>) {
    forall i, j :: 0 <= i < j < |q| ==> q[i] != q[j]
  }

  /** `n` calls the root, or a biz that calls it, and so on. */
  ghost predicate Reaches(m: Answers, root: Ref, n: Ref) {
    exists c: Item :: c[0] == root && Chain(m, c) && Listed(CallersOf(m, Last(c)), n)
  }

  lemma {:induction false} ItemsAreChains(m: Answers, item: Item, q: Item)
    requires Chain(m, item) && NoRepeats(item) && q in Tree(m, item)
    ensures item <= q && Chain(m, q) && NoRepeats(q)
    decreases Bizs(m) - Elements(item)
  {
    if q != item {
      var id :| id in CallersOf(m, Last(item)).bizs && Visible(item)(id) && q in Branch(m, item, id);
      NextItem(m, item, id);
      ItemsAreChains(m, item + [Ref(Biz, id)], q);
    }
  }

  lemma NextItem(m: Answers, item: Item, id: string)
    requires Chain(m, item) && NoRepeats(item) && id in CallersOf(m, Last(item)).bizs && Visible(item)(id)
    ensures var next := item + [Ref(Biz, id)];
            Chain(m, next) && NoRepeats(next) && Bizs(m) - Elements(next) < Bizs(m) - Elements(item)
  {
    var next := item + [Ref(Biz, id)];
    assert Ref(Biz, id) in Bizs(m) && Ref(Biz, id) in Elements(next);
    assert forall n :: n in Elements(item) ==> n in Elements(next);
  }

  lemma {:induction false} ChainsAreItems(m: Answers, item: Item, q: Item)
    requires item <= q && Chain(m, q) && NoRepeats(q)
    ensures q in Tree(m, item)
    decreases |q| - |item|
  {
    if q != item {
      var b := q[|item|];
      assert q[|item| - 1] == Last(item);
      assert Visible(item)(b.id) by {
        assert forall i :: 0 <= i < |item| ==> item[i] == q[i];
      }
      ChainsAreItems(m, item + [b], q);
      assert q in Branch(m, item, b.id);
    }
  }

  /** Opening everything brings up exactly the caller chains without repeats, so no path is endless. */
  lemma TreeIsSimpleChains(m: Answers, root: Ref, q: Item)
    ensures q in Tree(m, [root]) <==> q[0] == root && Chain(m, q) && NoRepeats(q)
  {
    var item: Item := [root];
    if q in Tree(m, item) {
      ItemsAreChains(m, item, q);
    }
    if q[0] == root && Chain(m, q) && NoRepeats(q) {
      assert q[..1] == item;
      ChainsAreItems(m, item, q);
    }
  }

  /** A chain with repeats has a shorter one with the same ends. */
  lemma {:induction false} CutLoops(m: Answers, c: Item) returns (s: Item)
    requires Chain(m, c)
    ensures s[0] == c[0] && Last(s) == Last(c) && Chain(m, s) && NoRepeats(s)
    decreases |c|
  {
    if i, j :| 0 <= i < j < |c| && c[i] == c[j] {
      var d := c[..i + 1] + c[j + 1..];
      forall k | 0 < k < |d| ensures d[k].kind.Biz? && d[k].id in CallersOf(m, d[k - 1]).bizs {
        if k > i {
          assert d[k] == c[k + j - i] && d[k - 1] == c[k - 1 + j - i];
        }
      }
      assert Last(d) == Last(c);
      s := CutLoops(m, d);
    } else {
      s := c;
    }
  }

  /** Hiding ancestors loses no caller: whatever reaches the root is named by some item of the tree. */
  lemma EveryCallerIsNamed(m: Answers, root: Ref, n: Ref)
    ensures (exists q :: q in Tree(m, [root]) && Listed(CallersOf(m, Last(q)), n)) <==> Reaches(m, root, n)
  {
    if q :| q in Tree(m, [root]) && Listed(CallersOf(m, Last(q)), n) {
      TreeIsSimpleChains(m, root, q);
    }
    if Reaches(m, root, n) {
      var c: Item :| c[0] == root && Chain(m, c) && Listed(CallersOf(m, Last(c)), n);
      var s := CutLoops(m, c);
      TreeIsSimpleChains(m, root, s);
    }
  }

  /** Every biz other than the root that reaches it has an item of its own, and no other biz has one. */
  lemma EveryBizIsShown(m: Answers, root: Ref, id: string)
    requires Ref(Biz, id) != root
    ensures (exists q :: q in Tree(m, [root]) && Last(q) == Ref(Biz, id)) <==> Reaches(m, root, Ref(Biz, id))
  {
    var n := Ref(Biz, id);
    if q :| q in Tree(m, [root]) && Last(q) == n {
      TreeIsSimpleChains(m, root, q);
      var c: Item := q[..|q| - 1];
      assert c[0] == root && Chain(m, c) && Listed(CallersOf(m, Last(c)), n);
    }
    if Reaches(m, root, n) {
      var c: Item :| c[0] == root && Chain(m, c) && Listed(CallersOf(m, Last(c)), n);
      var s := CutLoops(m, c + [n]);
      TreeIsSimpleChains(m, root, s);
    }
  }

  // ----- The screen -----

  /** `q` is a chain of callers of some root, without repeats. */
  ghost predicate Simple(m: Answers, roots: set<Ref>, q: Item) {
    q[0] in roots && Chain(m, q) && NoRepeats(q)
  }

  lemma ForestIsSimple(m: Answers, roots: set<Ref>, q: Item)
    ensures q in Forest(m, roots) <==> Simple(m, roots, q)
  {
    TreeIsSimpleChains(m, q[0], q);
    if q in Forest(m, roots) {
      var r :| r in roots && q in Tree(m, [r]);
      TreeIsSimpleChains(m, r, q);
    }
  }

  lemma {:induction false} ClosedHoldsTree(m: Answers, items: set<Item>, item: Item, q: Item)
    requires item in items && q in Tree(m, item)
    requires forall c :: c in items ==> Under(m, c) <= items
    ensures q in items
    decreases Bizs(m) - Elements(item)
  {
    if q != item {
      var id :| id in CallersOf(m, Last(item)).bizs && Visible(item)(id) && q in Branch(m, item, id);
      var next := item + [Ref(Biz, id)];
      assert Ref(Biz, id) in Bizs(m) && Ref(Biz, id) in Elements(next);
      assert forall n :: n in Elements(item) ==> n in Elements(next);
      assert next in Under(m, item);
      ClosedHoldsTree(m, items, next, q);
    }
  }

  /** `ids` are the callers of one kind that the answers for `items` name. */
  ghost predicate Collects(m: Answers, items: set<Item>, kind: Kind, ids: set<string>) {
    forall id :: id in ids <==> exists q :: q in items && Listed(CallersOf(m, Last(q)), Ref(kind, id))
  }

  lemma CollectsMore(m: Answers, items: set<Item>, item: Item, kind: Kind, ids: set<string>, more: set<string>)
    requires Collects(m, items, kind, ids)
    requires forall id :: id in more <==> Listed(CallersOf(m, Last(item)), Ref(kind, id))
    ensures Collects(m, items + {item}, kind, ids + more)
  {
    forall id
      ensures id in ids + more <==> exists q :: q in items + {item} && Listed(CallersOf(m, Last(q)), Ref(kind, id))
    {
      if id in more {
        assert item in items + {item};
      }
      if q :| q in items && Listed(CallersOf(m, Last(q)), Ref(kind, id)) {
        assert q in items + {item};
      }
    }
  }

  /** The totals count what the answers for some items name. */
  ghost predicate Counts(m: Answers, items: set<Item>, services: set<string>, bizs: set<string>, batches: set<string>) {
    Collects(m, items, Service, services) && Collects(m, items, Biz, bizs) && Collects(m, items, Batch, batches)
  }

  lemma CountsMore(m: Answers, items: set<Item>, item: Item, services: set<string>, bizs: set<string>,
                   batches: set<string>)
    requires Counts(m, items, services, bizs, batches)
    ensures var answer := CallersOf(m, Last(item));
            Counts(m, items + {item}, services + Elements(answer.services), bizs + Elements(answer.bizs),
                   batches + Elements(answer.batches))
  {
    var answer := CallersOf(m, Last(item));
    CollectsMore(m, items, item, Service, services, Elements(answer.services));
    CollectsMore(m, items, item, Biz, bizs, Elements(answer.bizs));
    CollectsMore(m, items, item, Batch, batches, Elements(answer.batches));
  }

  /** What stands below `item`. */
  function Below(items: set<Item>, item: Item): set<Item> {
    set q | q in items && item < q
  }

  /** The items on screen are chains without repeats, the roots among them. */
  ghost predicate Drawn(m: Answers, roots: set<Ref>, shown: set<Item>) {
    (forall q :: q in shown ==> Simple(m, roots, q)) && (forall r :: r in roots ==> [r] in shown)
  }

  /** What stands below a loaded item is on screen. */
  ghost predicate Closed(m: Answers, shown: set<Item>, loaded: set<Item>) {
    forall q :: q in loaded ==> Under(m, q) <= shown
  }

  function Parent(q: Item): seq<Ref> {
    q[..|q| - 1]
  }

  /** What is on screen, roots apart, stands below a loaded item. */
  ghost predicate Attached(shown: set<Item>, loaded: set<Item>) {
    forall q :: q in shown && |q| > 1 ==> Parent(q) in loaded
  }

  ghost predicate Grown(m: Answers, roots: set<Ref>, shown: set<Item>, loaded: set<Item>) {
    loaded <= shown && Drawn(m, roots, shown) && Closed(m, shown, loaded) && Attached(shown, loaded)
  }

  lemma ChildIsBelow(m: Answers, q: Item, c: Item)
    requires c in Under(m, q)
    ensures |c| > 1 && Parent(c) == q
  {
    var id :| id in CallersOf(m, Last(q)).bizs && Visible(q)(id) && c == q + [Ref(Biz, id)];
    assert c[..|q|] == q;
  }

  lemma ParentIsAbove(c: Item, item: Item)
    requires |c| > 1
    ensures item < c <==> item == Parent(c) || item < Parent(c)
  {
    var up := Parent(c);
    if item < c {
      assert item == c[..|item|] == up[..|item|];
    }
  }

  lemma ClosedLess(m: Answers, shown: set<Item>, loaded: set<Item>, item: Item)
    requires Closed(m, shown, loaded)
    ensures Closed(m, shown - Below(shown, item), loaded - Below(loaded, item) - {item})
  {
    forall q, c | q in loaded - Below(loaded, item) - {item} && c in Under(m, q)
      ensures c in shown - Below(shown, item)
    {
      ChildIsBelow(m, q, c);
      ParentIsAbove(c, item);
    }
  }

  lemma AttachedLess(shown: set<Item>, loaded: set<Item>, item: Item)
    requires Attached(shown, loaded)
    ensures Attached(shown - Below(shown, item), loaded - Below(loaded, item) - {item})
  {
    forall q | q in shown - Below(shown, item) && |q| > 1 ensures Parent(q) in loaded - Below(loaded, item) - {item} {
      ParentIsAbove(q, item);
    }
  }

  /** Without what stands below `item`, and with `item` not loaded. */
  lemma GrownLess(m: Answers, roots: set<Ref>, shown: set<Item>, loaded: set<Item>, item: Item)
    requires Grown(m, roots, shown, loaded) && item in shown
    ensures Grown(m, roots, shown - Below(shown, item), loaded - Below(loaded, item) - {item})
  {
    ClosedLess(m, shown, loaded, item);
    AttachedLess(shown, loaded, item);
  }

  lemma DrawnMore(m: Answers, roots: set<Ref>, shown: set<Item>, item: Item)
    requires Drawn(m, roots, shown) && item in shown
    ensures Drawn(m, roots, shown + Under(m, item))
  {
    forall c | c in Under(m, item) ensures Simple(m, roots, c) {
      var id :| id in CallersOf(m, Last(item)).bizs && Visible(item)(id) && c == item + [Ref(Biz, id)];
    }
  }

  lemma AttachedMore(m: Answers, shown: set<Item>, loaded: set<Item>, item: Item)
    requires Attached(shown, loaded)
    ensures Attached(shown + Under(m, item), loaded + {item})
  {
    forall c | c in Under(m, item) ensures Parent(c) == item {
      ChildIsBelow(m, item, c);
    }
  }

  lemma GrownMore(m: Answers, roots: set<Ref>, shown: set<Item>, loaded: set<Item>, item: Item)
    requires Grown(m, roots, shown, loaded) && item in shown
    ensures Grown(m, roots, shown + Under(m, item), loaded + {item})
  {
    DrawnMore(m, roots, shown, item);
    AttachedMore(m, shown, loaded, item);
  }

  /** Below an item that is not loaded there is nothing. */
  lemma {:induction false} NothingBelow(shown: set<Item>, loaded: set<Item>, item: Item, q: Item)
    requires Attached(shown, loaded) && loaded <= shown && item !in loaded && q in shown
    ensures !(item < q)
    decreases |q|
  {
    if |q| > 1 {
      ParentIsAbove(q, item);
      NothingBelow(shown, loaded, item, Parent(q));
    }
  }

  /** `ids` are exactly the modules of one kind that reach a root. */
  ghost predicate ExactlyReaching(m: Answers, roots: set<Ref>, kind: Kind, ids: set<string>) {
    forall id :: id in ids <==> exists r :: r in roots && Reaches(m, r, Ref(kind, id))
  }

  /** The result list and the running totals above it. */
  class Screen {
    const answers: Answers
    const roots: set<Ref>
    var shown: set<Item>
    var loaded: set<Item>
    var services: set<string>
    var bizs: set<string>
    var batches: set<string>
    ghost var drawn: set<Item>
    ghost var answered: set<Item>

    ghost predicate Valid()
      reads this
    {
      && Grown(answers, roots, shown, loaded)
      && shown <= drawn && loaded <= answered <= drawn && (forall q :: q in drawn ==> Simple(answers, roots, q))
      && Counts(answers, answered, services, bizs, batches)
    }

    constructor (answers: Answers, roots: set<Ref>)
      ensures this.answers == answers && this.roots == roots
      ensures Valid() && loaded == {} && shown == drawn == set r | r in roots :: [r]
    {
      this.answers, this.roots := answers, roots;
      shown := set r | r in roots :: [r];
      drawn := set r | r in roots :: [r];
      loaded, answered, services, bizs, batches := {}, {}, {}, {}, {};
      new;
    }

    /** A reply to a request for an item's callers, the first one or a repeated one: the item is drawn anew with what
        stands below it, and its callers are counted; a failed request leaves it to be opened again. */
    method LoadCallers(item: Item, answer: Option<CallersResult>)
      requires Valid() && item in shown
      requires answer.Some? ==> answer.value == CallersOf(answers, Last(item))
      modifies this
      ensures Valid()
      ensures loaded == old(loaded) - Below(old(loaded), item) - {item} + if answer.Some? then {item} else {}
      ensures shown == old(shown) - Below(old(shown), item) + if answer.Some? then Under(answers, item) else {}
      ensures drawn == old(drawn) + if answer.Some? then Under(answers, item) else {}
      ensures services == old(services) + if answer.Some? then Elements(answer.value.services) else {}
      ensures bizs == old(bizs) + if answer.Some? then Elements(answer.value.bizs) else {}
      ensures batches == old(batches) + if answer.Some? then Elements(answer.value.batches) else {}
    {
      GrownLess(answers, roots, shown, loaded, item);
      Clear(item);
      if answer.None? {
        return;
      }
      var visible := VisibleItems(item, answer.value.bizs);
      CountsMore(answers, answered, item, services, bizs, batches);
      GrownMore(answers, roots, shown, loaded, item);
      loaded := loaded + {item};
      answered := answered + {item};
      shown := shown + visible;
      drawn := drawn + visible;
      services := services + Elements(answer.value.services);
      bizs := bizs + Elements(answer.value.bizs);
      batches := batches + Elements(answer.value.batches);
    }

    /** A reply for an item that has been drawn anew since it was asked about: its callers are only counted. */
    method CountLateReply(item: Item, answer: CallersResult)
      requires Valid() && item in drawn && answer == CallersOf(answers, Last(item))
      modifies `services, `bizs, `batches, `answered
      ensures Valid()
      ensures services == old(services) + Elements(answer.services)
      ensures bizs == old(bizs) + Elements(answer.bizs)
      ensures batches == old(batches) + Elements(answer.batches)
    {
      CountsMore(answers, answered, item, services, bizs, batches);
      answered := answered + {item};
      services := services + Elements(answer.services);
      bizs := bizs + Elements(answer.bizs);
      batches := batches + Elements(answer.batches);
    }

    /** Emptying an item's body. */
    method Clear(item: Item)
      modifies `shown, `loaded
      ensures shown == old(shown) - Below(old(shown), item)
      ensures loaded == old(loaded) - Below(old(loaded), item) - {item}
    {
      shown := shown - Below(shown, item);
      loaded := loaded - Below(loaded, item) - {item};
    }

    /** The biz group of an opened item: an item for every caller that is not an ancestor. */
    method VisibleItems(item: Item, ids: seq<string>) returns (items: set<Item>)
      ensures items == ItemsFor(item, ids)
    {
      items := {};
      for i := 0 to |ids|
        invariant items == ItemsFor(item, ids[..i])
      {
        assert forall id :: id in ids[..i + 1] <==> id in ids[..i] || id == ids[i];
        if Ref(Biz, ids[i]) !in item {
          items := items + {item + [Ref(Biz, ids[i])]};
        }
      }
      assert ids[..|ids|] == ids;
    }

    /** Opening whatever is not open yet, in any order, comes to an end; by then the totals hold exactly the
        modules that reach a root, and every simple chain of callers is on screen. */
    method OpenEverything()
      requires Valid()
      modifies this
      ensures Valid() && shown == loaded == Forest(answers, roots)
      ensures ExactlyReaching(answers, roots, Service, services)
      ensures ExactlyReaching(answers, roots, Biz, bizs)
      ensures ExactlyReaching(answers, roots, Batch, batches)
    {
      while shown != loaded
        invariant Valid()
        decreases Forest(answers, roots) - loaded
      {
        assert exists item :: item in shown && item !in loaded;
        var item :| item in shown && item !in loaded;
        ForestIsSimple(answers, roots, item);
        NoneIsBelow(item);
        LoadCallers(item, Some(CallersOf(answers, Last(item))));
      }
      TotalsWhenAllLoaded();
    }

    lemma NoneIsBelow(item: Item)
      requires Valid() && item !in loaded
      ensures Below(loaded, item) == {}
    {
      forall q | q in loaded ensures !(item < q) {
        NothingBelow(shown, loaded, item, q);
      }
    }

    /** However it came about -- failed, repeated and late replies included: when all that is on screen is loaded,
        everything is on screen and the totals are exact. */
    lemma TotalsWhenAllLoaded()
      requires Valid() && shown == loaded
      ensures shown == Forest(answers, roots)
      ensures ExactlyReaching(answers, roots, Service, services)
      ensures ExactlyReaching(answers, roots, Biz, bizs)
      ensures ExactlyReaching(answers, roots, Batch, batches)
    {
      EverythingIsShown();
      forall q | q in answered ensures q in Forest(answers, roots) {
        ForestIsSimple(answers, roots, q);
      }
      assert answered == Forest(answers, roots);
      CollectsReached(answers, answered, roots, Service, services);
      CollectsReached(answers, answered, roots, Biz, bizs);
      CollectsReached(answers, answered, roots, Batch, batches);
    }

    lemma EverythingIsShown()
      requires Valid() && shown == loaded
      ensures shown == Forest(answers, roots)
    {
      forall r, q | r in roots && q in Tree(answers, [r]) ensures q in shown {
        ClosedHoldsTree(answers, shown, [r], q);
      }
      forall q | q in shown ensures q in Forest(answers, roots) {
        ForestIsSimple(answers, roots, q);
      }
    }
  }

  lemma CollectsReached(m: Answers, items: set<Item>, roots: set<Ref>, kind: Kind, ids: set<string>)
    requires items == Forest(m, roots) && Collects(m, items, kind, ids)
    ensures ExactlyReaching(m, roots, kind, ids)
  {
    forall id ensures id in ids <==> exists r :: r in roots && Reaches(m, r, Ref(kind, id)) {
      if q :| q in Forest(m, roots) && Listed(CallersOf(m, Last(q)), Ref(kind, id)) {
        var r :| r in roots && q in Tree(m, [r]);
        EveryCallerIsNamed(m, r, Ref(kind, id));
      }
      if r :| r in roots && Reaches(m, r, Ref(kind, id)) {
        EveryCallerIsNamed(m, r, Ref(kind, id));
        var q :| q in Tree(m, [r]) && Listed(CallersOf(m, Last(q)), Ref(kind, id));
        assert q in Forest(m, roots);
      }
    }
  }
}
