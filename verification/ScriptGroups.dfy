/** Regrouping by suffix keeps the meaning of the script, and the text that is shown has that meaning. */
module ScriptGroups {
  import opened Texts
  import opened MigrationScript
  import opened MigrationSql
  import opened MigrationReading
  import opened ScriptMeaning

  const DISPLAYED := GROUP_ORDER + [GROUP_OTHER]

  function GroupedTables(groups: seq<Group>): seq<string> {
    if groups == [] then [] else GroupedTables(groups[..|groups| - 1]) + groups[|groups| - 1].tables
  }

  function Keys(groups: seq<Group>): seq<string> {
    if groups == [] then [] else Keys(groups[..|groups| - 1]) + [groups[|groups| - 1].key]
  }

  function Inhabited(generated: seq<string>): string -> bool {
    (key: string) => Filter(generated, InGroup(key)) != []
  }

  // ----- What the groups are -----

  /** Each group is the non-empty, order-keeping selection of the generated tables with its key. */
  lemma {:induction false} GroupIsFilter(job: Job, generated: seq<string>, order: seq<string>, g: Group)
    requires g in GroupsOf(job, generated, order)
    ensures g.key in order && g.tables != [] && g.tables == Filter(generated, InGroup(g.key))
  {
    if g in GroupsOf(job, generated, order[..|order| - 1]) {
      GroupIsFilter(job, generated, order[..|order| - 1], g);
    }
  }

  /** The groups stand in display order, one for each key that some generated table has. */
  lemma {:induction false} GroupsInDisplayOrder(job: Job, generated: seq<string>, order: seq<string>)
    ensures Keys(GroupsOf(job, generated, order)) == Filter(order, Inhabited(generated))
  {
    if order != [] {
      var front, key := order[..|order| - 1], order[|order| - 1];
      assert order == front + [key];
      GroupsInDisplayOrder(job, generated, front);
      KeysSnoc(job, generated, front, key);
    }
  }

  lemma KeysSnoc(job: Job, generated: seq<string>, front: seq<string>, key: string)
    requires Keys(GroupsOf(job, generated, front)) == Filter(front, Inhabited(generated))
    ensures Keys(GroupsOf(job, generated, front + [key])) == Filter(front + [key], Inhabited(generated))
  {
    FilterSnoc(front, key, Inhabited(generated));
    GroupsSnoc(job, generated, front, key);
  }

  lemma GroupsSnoc(job: Job, generated: seq<string>, front: seq<string>, key: string)
    ensures var ts := Filter(generated, InGroup(key));
            var before, after := GroupsOf(job, generated, front), GroupsOf(job, generated, front + [key]);
            && Keys(after) == (if ts == [] then Keys(before) else Keys(before) + [key])
            && GroupedTables(after) == GroupedTables(before) + ts
  {
    var ts := Filter(generated, InGroup(key));
    var before := GroupsOf(job, generated, front);
    assert (front + [key])[..|front|] == front;
    if ts == [] {
      assert before + [] == before;
      assert GroupedTables(before) + ts == GroupedTables(before);
    } else {
      var g := Group(key, Join(Blocks(job, ts), "\n\n"), ts);
      assert (before + [g])[..|before|] == before;
    }
  }

  lemma {:induction false} SuffixFound(up: string, order: seq<string>)
    ensures var s := SuffixIn(up, order); s == GROUP_OTHER || (s in order && EndsWith(up, s))
  {
    if order != [] && !EndsWith(up, order[0]) {
      SuffixFound(up, order[1..]);
    }
  }

  lemma {:induction false} SuffixDecides(up: string, order: seq<string>, suffix: string)
    requires suffix in order && GROUP_OTHER !in order && forall s :: s in order ==> |s| == 3
    ensures SuffixIn(up, order) == suffix <==> EndsWith(up, suffix)
  {
    assert |order[0]| == 3 && |suffix| == 3;
    if !EndsWith(up, order[0]) {
      SuffixFound(up, order[1..]);
      if suffix in order[1..] {
        SuffixDecides(up, order[1..], suffix);
      }
    }
  }

  /** A table belongs to a suffix exactly when its upper-cased name ends with it. */
  lemma GroupKeyIsSuffix(t: string, suffix: string)
    requires suffix in GROUP_ORDER
    ensures GroupKey(t) == suffix <==> EndsWith(Upper(t), suffix)
  {
    SuffixDecides(Upper(t), GROUP_ORDER, suffix);
  }

  lemma EveryKeyIsDisplayed(t: string)
    ensures GroupKey(t) in DISPLAYED
  {
    SuffixFound(Upper(t), GROUP_ORDER);
    assert GROUP_OTHER == DISPLAYED[5];
  }

  lemma DisplayedOnce(i: nat, j: nat)
    requires i < j < |DISPLAYED|
    ensures DISPLAYED[i] != DISPLAYED[j]
  {
    if j < 5 {
      assert DISPLAYED[i][1] != DISPLAYED[j][1];
    } else {
      assert |DISPLAYED[i]| != |DISPLAYED[j]|;
    }
  }

  lemma {:induction false} CountInGroup(generated: seq<string>, key: string, t: string)
    ensures multiset(Filter(generated, InGroup(key)))[t] == if GroupKey(t) == key then multiset(generated)[t] else 0
  {
    if generated != [] {
      CountInGroup(generated[1..], key, t);
      assert generated == [generated[0]] + generated[1..];
    }
  }

  lemma {:induction false} CountInGroups(job: Job, generated: seq<string>, order: seq<string>, t: string)
    requires forall i, j :: 0 <= i < j < |order| ==> order[i] != order[j]
    ensures multiset(GroupedTables(GroupsOf(job, generated, order)))[t]
            == if GroupKey(t) in order then multiset(generated)[t] else 0
  {
    if order != [] {
      var front, key := order[..|order| - 1], order[|order| - 1];
      assert order == front + [key];
      CountInGroups(job, generated, front, t);
      NextGroupCounts(job, generated, front, key, t);
    }
  }

  lemma NextGroupCounts(job: Job, generated: seq<string>, front: seq<string>, key: string, t: string)
    requires key !in front
    requires multiset(GroupedTables(GroupsOf(job, generated, front)))[t]
             == if GroupKey(t) in front then multiset(generated)[t] else 0
    ensures multiset(GroupedTables(GroupsOf(job, generated, front + [key])))[t]
            == if GroupKey(t) in front + [key] then multiset(generated)[t] else 0
  {
    GroupsSnoc(job, generated, front, key);
    CountInGroup(generated, key, t);
  }

  /** Together the groups are a permutation of the generated tables. */
  lemma GroupsArePermutation(job: Job, generated: seq<string>)
    ensures multiset(GroupedTables(GroupsOf(job, generated, DISPLAYED))) == multiset(generated)
  {
    forall i, j | 0 <= i < j < |DISPLAYED| ensures DISPLAYED[i] != DISPLAYED[j] {
      DisplayedOnce(i, j);
    }
    forall t: string ensures multiset(GroupedTables(GroupsOf(job, generated, DISPLAYED)))[t] == multiset(generated)[t] {
      CountInGroups(job, generated, DISPLAYED, t);
      EveryKeyIsDisplayed(t);
    }
  }

  // ----- Running the groups one after the other -----

  function RunGroups(job: Job, db: Databases, groups: seq<Group>): Databases {
    if groups == [] then db
    else Run(RunGroups(job, db, groups[..|groups| - 1]), AllStmts(job, groups[|groups| - 1].tables))
  }

  lemma {:induction false} RunGroupsIsRun(job: Job, db: Databases, groups: seq<Group>)
    ensures RunGroups(job, db, groups) == Run(db, AllStmts(job, GroupedTables(groups)))
  {
    if groups != [] {
      var front, last := groups[..|groups| - 1], groups[|groups| - 1];
      RunGroupsIsRun(job, db, front);
      StmtsOfConcat(job, GroupedTables(front), last.tables);
      RunOfConcat(db, AllStmts(job, GroupedTables(front)), AllStmts(job, last.tables));
    }
  }

  lemma SpelledAlike(t: string, u: string)
    requires Upper(u) == Upper(t)
    ensures GroupKey(u) == GroupKey(t)
  {
  }

  /** All spellings of a table stand in its group. */
  lemma {:induction false} SpellingsInGroup(generated: seq<string>, key: string, t: string)
    ensures Filter(Filter(generated, InGroup(key)), Spells(t)) ==
            if GroupKey(t) == key then Filter(generated, Spells(t)) else []
  {
    if generated != [] {
      var u, rest := generated[0], generated[1..];
      SpellingsInGroup(rest, key, t);
      assert generated == [u] + rest;
      SpellingsAhead(u, rest, key, t);
    }
  }

  lemma SpellingsAhead(u: string, rest: seq<string>, key: string, t: string)
    requires Filter(Filter(rest, InGroup(key)), Spells(t)) == if GroupKey(t) == key then Filter(rest, Spells(t)) else []
    ensures Filter(Filter([u] + rest, InGroup(key)), Spells(t)) ==
            if GroupKey(t) == key then Filter([u] + rest, Spells(t)) else []
  {
    if Upper(u) == Upper(t) {
      SpelledAlike(t, u);
    }
    FilterOfConcat([u], rest, InGroup(key));
    FilterOfConcat(Filter([u], InGroup(key)), Filter(rest, InGroup(key)), Spells(t));
    FilterOfConcat([u], rest, Spells(t));
    OneInGroup(u, key, t);
  }

  lemma OneInGroup(u: string, key: string, t: string)
    requires Upper(u) == Upper(t) ==> GroupKey(u) == GroupKey(t)
    ensures Filter(Filter([u], InGroup(key)), Spells(t)) == if GroupKey(t) == key then Filter([u], Spells(t)) else []
  {
    FilterSnoc([], u, InGroup(key));
    FilterSnoc([], u, Spells(t));
    assert [] + [u] == [u];
  }

  /** Regrouping keeps the order in which the spellings of a table are listed. */
  lemma {:induction false} SpellingsKeepOrder(job: Job, generated: seq<string>, order: seq<string>, t: string)
    requires forall i, j :: 0 <= i < j < |order| ==> order[i] != order[j]
    ensures Filter(GroupedTables(GroupsOf(job, generated, order)), Spells(t)) ==
            if GroupKey(t) in order then Filter(generated, Spells(t)) else []
  {
    if order != [] {
      var front, key := order[..|order| - 1], order[|order| - 1];
      assert order == front + [key];
      SpellingsKeepOrder(job, generated, front, t);
      NextGroupKeepsOrder(job, generated, front, key, t);
    }
  }

  lemma NextGroupKeepsOrder(job: Job, generated: seq<string>, front: seq<string>, key: string, t: string)
    requires key !in front
    requires Filter(GroupedTables(GroupsOf(job, generated, front)), Spells(t)) ==
             if GroupKey(t) in front then Filter(generated, Spells(t)) else []
    ensures Filter(GroupedTables(GroupsOf(job, generated, front + [key])), Spells(t)) ==
            if GroupKey(t) in front + [key] then Filter(generated, Spells(t)) else []
  {
    GroupsSnoc(job, generated, front, key);
    SpellingsInGroup(generated, key, t);
    MoreSpellings(GroupedTables(GroupsOf(job, generated, front)), Filter(generated, InGroup(key)), t,
                  Filter(generated, Spells(t)), GroupKey(t) in front, GroupKey(t) == key);
  }

  lemma MoreSpellings(before: seq<string>, own: seq<string>, t: string, all: seq<string>, earlier: bool, here: bool)
    requires Filter(before, Spells(t)) == if earlier then all else []
    requires Filter(own, Spells(t)) == if here then all else []
    requires !(earlier && here)
    ensures Filter(before + own, Spells(t)) == if earlier || here then all else []
  {
    FilterOfConcat(before, own, Spells(t));
    assert [] + all == all && all + [] == all;
  }

  lemma SameSpellings(job: Job, generated: seq<string>, t: string)
    ensures Filter(GroupedTables(GroupsOf(job, generated, DISPLAYED)), Spells(t)) == Filter(generated, Spells(t))
  {
    forall i, j | 0 <= i < j < |DISPLAYED| ensures DISPLAYED[i] != DISPLAYED[j] {
      DisplayedOnce(i, j);
    }
    SpellingsKeepOrder(job, generated, DISPLAYED, t);
    EveryKeyIsDisplayed(t);
  }

  /** Running the groups in display order has the same effect as running the full script, repeated tables and different
      spellings of one table included. */
  lemma RegroupingKeepsMeaning(job: Job, db: Databases, tables: seq<string>, p: Place)
    ensures TableAt(RunGroups(job, db, Result(job, tables).groups), p)
            == TableAt(Run(db, AllStmts(job, Result(job, tables).generated)), p)
  {
    var r := Result(job, tables);
    RunGroupsIsRun(job, db, r.groups);
    StmtsMeaning(job, db, GroupedTables(r.groups), p);
    StmtsMeaning(job, db, r.generated, p);
    SameSpellings(job, r.generated, p.table);
  }

  // ----- The texts -----

  /** Running the group texts one after the other. */
  function RunTexts(db: Databases, groups: seq<Group>): Option<Databases> {
    if groups == [] then Some(db)
    else
      var before := RunTexts(db, groups[..|groups| - 1]);
      if before.None? then None else RunText(before.value, groups[|groups| - 1].sql)
  }

  /** The generated text, run as a script: behind the TO link each place has the rows that the generated tables keep and
      copy, elsewhere all stays. */
  lemma TextMeaning(job: Job, db: Databases, tables: seq<string>, p: Place)
    requires Readable(job, tables)
    ensures var end := RunText(db, Result(job, tables).sql);
            end.Some? && TableAt(end.value, p) == Final(job, db, Result(job, tables).generated, p)
  {
    ScriptReads(job, tables);
    StmtsMeaning(job, db, Result(job, tables).generated, p);
  }

  /** With names in upper case, as requests are normalised: each generated table is refreshed, and a place that is not
      behind the TO link, or whose table is not generated, is left alone. */
  lemma TextRefreshes(job: Job, db: Databases, tables: seq<string>, t: string, p: Place)
    requires Readable(job, tables) && forall u :: u in tables ==> Upper(u) == u
    ensures var end := RunText(db, Result(job, tables).sql);
            && end.Some?
            && (t in Result(job, tables).generated ==> TableAt(end.value, Target(job, t)) == Refreshed(job, db, t))
            && (!BehindTo(job, p) || Upper(p.table) !in Result(job, tables).generated ==>
                  TableAt(end.value, p) == TableAt(db, p))
  {
    var generated := Result(job, tables).generated;
    TextMeaning(job, db, tables, Target(job, t));
    TextMeaning(job, db, tables, p);
    if t in generated {
      RefreshedOnce(job, db, generated, t);
    }
    if Upper(p.table) !in generated {
      NotListed(job, db, generated, p);
    }
  }

  lemma NotListed(job: Job, db: Databases, ts: seq<string>, p: Place)
    requires Upper(p.table) !in ts && forall u :: u in ts ==> Upper(u) == u
    ensures Final(job, db, ts, p) == TableAt(db, p)
  {
    var own := Filter(ts, Spells(p.table));
    HasMember(own);
    NoneListed(job, db, p);
  }

  lemma {:induction false} TextsRun(job: Job, db: Databases, groups: seq<Group>)
    requires forall g :: g in groups ==> ReadScript(g.sql) == Some(AllStmts(job, g.tables))
    ensures RunTexts(db, groups) == Some(RunGroups(job, db, groups))
  {
    if groups != [] {
      TextsRun(job, db, groups[..|groups| - 1]);
      assert groups[|groups| - 1] in groups;
    }
  }

  /** The texts of the group boxes, run in display order, do what the full text does. */
  lemma GroupTextsMeaning(job: Job, db: Databases, tables: seq<string>, p: Place)
    requires Readable(job, tables)
    ensures var whole, parts := RunText(db, Result(job, tables).sql), RunTexts(db, Result(job, tables).groups);
            whole.Some? && parts.Some? && TableAt(parts.value, p) == TableAt(whole.value, p)
  {
    var r := Result(job, tables);
    GeneratedHaveConditions(job, tables);
    forall g | g in r.groups ensures ReadScript(g.sql) == Some(AllStmts(job, g.tables)) {
      GroupIsFilter(job, r.generated, DISPLAYED, g);
      GroupScriptsRead(job, r.generated, DISPLAYED, g);
    }
    TextsRun(job, db, r.groups);
    ScriptReads(job, tables);
    RegroupingKeepsMeaning(job, db, tables, p);
  }
}
