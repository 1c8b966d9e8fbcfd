/** Generating the migration script: classification of tables, blocks, notes and suffix groups. */
module MigrationSql {
  import opened Texts
  import opened KeyConditions
  import opened MigrationScript

  /** One request: PK columns per table, input per column, and the two database links. */
  datatype Job = Job(pkMap: map<string, seq<string>>, keys: map<string, KeyCond>, fromLink: string, toLink: string)

  datatype Group = Group(key: string, sql: string, tables: seq<string>)

  datatype MigrationResult = MigrationResult(
    sql: string, generated: seq<string>, skipped: seq<string>, noPk: seq<string>, groups: seq<Group>)

  function Columns(job: Job, t: string): seq<string> {
    if t in job.pkMap then job.pkMap[t] else []
  }

  function TableConds(job: Job, t: string): seq<Cond> {
    Conditions(Columns(job, t), job.keys)
  }

  /** The PK columns left out of the WHERE clause. */
  function Omitted(cols: seq<string>, keys: map<string, KeyCond>): seq<string> {
    if cols == [] then []
    else (if cols[0] in keys && Asked(cols[0], keys[cols[0]]).Some? then [] else [cols[0]]) + Omitted(cols[1..], keys)
  }

  function HasNoPk(job: Job): string -> bool {
    (t: string) => Columns(job, t) == []
  }

  function IsSkipped(job: Job): string -> bool {
    (t: string) => Columns(job, t) != [] && TableConds(job, t) == []
  }

  function IsGenerated(job: Job): string -> bool {
    (t: string) => TableConds(job, t) != []
  }

  // ----- Blocks -----

  function Target(job: Job, t: string): Place { Place(t, LinkName(job.toLink)) }
  function Source(job: Job, t: string): Place { Place(t, LinkName(job.fromLink)) }

  /** What a table's block does: delete its slice behind the TO link, insert it from behind the FROM link. */
  function TableStmts(job: Job, t: string): seq<Stmt> {
    [Delete(Target(job, t), TableConds(job, t)), Insert(Target(job, t), Source(job, t), TableConds(job, t))]
  }

  function OmittedNote(omitted: seq<string>): string {
    if omitted == [] then "" else "  (미입력 조건 제외: " + (Join(omitted, ", ") + ")")
  }

  function Block(job: Job, t: string): string {
    if TableConds(job, t) == [] then ""
    else
      "-- " + ((t + OmittedNote(Omitted(Columns(job, t), job.keys))) +
               ("\n" + (StmtText(TableStmts(job, t)[0]) + ("\n" + StmtText(TableStmts(job, t)[1])))))
  }

  function Blocks(job: Job, ts: seq<string>): (blocks: seq<string>)
    ensures |blocks| == |ts|
  {
    if ts == [] then [] else Blocks(job, ts[..|ts| - 1]) + [Block(job, ts[|ts| - 1])]
  }

  // ----- Groups -----

  const GROUP_ORDER := ["_BS", "_HT", "_MA", "_SM", "_TR"]
  const GROUP_OTHER := "기타"

  function SuffixIn(up: string, order: seq<string>): string {
    if order == [] then GROUP_OTHER else if EndsWith(up, order[0]) then order[0] else SuffixIn(up, order[1..])
  }

  function GroupKey(t: string): string {
    SuffixIn(Upper(t), GROUP_ORDER)
  }

  function InGroup(key: string): string -> bool {
    (t: string) => GroupKey(t) == key
  }

  function GroupsOf(job: Job, generated: seq<string>, order: seq<string>): seq<Group> {
    if order == [] then []
    else
      var ts := Filter(generated, InGroup(order[|order| - 1]));
      GroupsOf(job, generated, order[..|order| - 1]) +
      (if ts == [] then [] else [Group(order[|order| - 1], Join(Blocks(job, ts), "\n\n"), ts)])
  }

  // ----- The whole result -----

  const NO_PK := "(PK 정보 없어 제외) "
  const NO_KEYS := "(입력한 키가 없어 제외: 전체 삭제 방지) "

  /** One line on tables that are left out. */
  function NoteLine(what: string, ts: seq<string>): string {
    "-- " + (what + Join(ts, ", "))
  }

  function Note(what: string, ts: seq<string>): seq<string> {
    if ts == [] then [] else [NoteLine(what, ts)]
  }

  function Notes(noPk: seq<string>, skipped: seq<string>): seq<string> {
    Note(NO_PK, noPk) + Note(NO_KEYS, skipped)
  }

  function Part(lines: seq<string>, sep: string): seq<string> {
    if lines == [] then [] else [Join(lines, sep)]
  }

  /** Notes on the tables left out, then the blocks. */
  function Script(noPk: seq<string>, skipped: seq<string>, blocks: seq<string>): string {
    Join(Part(Notes(noPk, skipped), "\n") + Part(blocks, "\n\n"), "\n\n")
  }

  function Result(job: Job, tables: seq<string>): MigrationResult {
    var generated := Filter(tables, IsGenerated(job));
    var skipped := Filter(tables, IsSkipped(job));
    var noPk := Filter(tables, HasNoPk(job));
    MigrationResult(Script(noPk, skipped, Blocks(job, generated)), generated, skipped, noPk,
                    GroupsOf(job, generated, GROUP_ORDER + [GROUP_OTHER]))
  }

  // ----- The generator -----

  function LinkSuffix(link: string): string {
    if LinkName(link) == "" then "" else "@" + LinkName(link)
  }

  /** The column loop: condition texts for the columns with input, the others set aside. */
  method SortColumns(cols: seq<string>, keys: map<string, KeyCond>) returns (conds: seq<string>, omitted: seq<string>)
    ensures conds == CondTexts(Conditions(cols, keys)) && omitted == Omitted(cols, keys)
  {
    conds, omitted := [], [];
    assert cols[0..] == cols;
    for i := 0 to |cols|
      invariant conds + CondTexts(Conditions(cols[i..], keys)) == CondTexts(Conditions(cols, keys))
      invariant omitted + Omitted(cols[i..], keys) == Omitted(cols, keys)
    {
      ColumnStep(cols, keys, i);
      var col := cols[i];
      var cond := if col in keys then Condition(col, keys[col]) else None;
      if cond.Some? {
        Associative(conds, [cond.value], CondTexts(Conditions(cols[i + 1..], keys)));
        conds := conds + [cond.value];
      } else {
        Associative(omitted, [col], Omitted(cols[i + 1..], keys));
        omitted := omitted + [col];
      }
    }
    assert conds + [] == conds && omitted + [] == omitted;
  }

  lemma ColumnStep(cols: seq<string>, keys: map<string, KeyCond>, i: nat)
    requires i < |cols|
    ensures var cond := if cols[i] in keys then Condition(cols[i], keys[cols[i]]) else None;
            var here, there := cols[i..], cols[i + 1..];
            && (cond.Some? ==> CondTexts(Conditions(here, keys)) == [cond.value] + CondTexts(Conditions(there, keys))
                               && Omitted(here, keys) == Omitted(there, keys))
            && (cond.None? ==> CondTexts(Conditions(here, keys)) == CondTexts(Conditions(there, keys))
                               && Omitted(here, keys) == [cols[i]] + Omitted(there, keys))
  {
    var here, there := cols[i..], cols[i + 1..];
    assert here[0] == cols[i] && here[1..] == there;
    var rest := Conditions(there, keys);
    if cols[i] in keys && Asked(cols[i], keys[cols[i]]).Some? {
      ConditionIsText(cols[i], keys[cols[i]]);
      var c := Asked(cols[i], keys[cols[i]]).value;
      assert Conditions(here, keys) == [c] + rest && ([c] + rest)[1..] == rest;
      assert Omitted(here, keys) == Omitted(there, keys);
    } else {
      if cols[i] in keys {
        ConditionIsText(cols[i], keys[cols[i]]);
      }
      assert Conditions(here, keys) == rest;
    }
  }

  /** The WHERE lines: the first condition after " WHERE ", the others after "   AND ". */
  method JoinConditions(conds: seq<string>) returns (where: string)
    requires conds != []
    ensures where == WhereText(conds)
  {
    where := " WHERE " + conds[0];
    assert where + AndLines(conds[1..]) == WhereText(conds) by {
      Associative(" WHERE ", conds[0], AndLines(conds[1..]));
    }
    for i := 1 to |conds|
      invariant where + AndLines(conds[i..]) == WhereText(conds)
    {
      AndLinesStep(where, conds, i);
      where := where + ("\n   AND " + conds[i]);
    }
    assert where + "" == where;
  }

  lemma AndLinesStep(where: string, conds: seq<string>, i: nat)
    requires i < |conds|
    ensures where + AndLines(conds[i..]) == (where + ("\n   AND " + conds[i])) + AndLines(conds[i + 1..])
  {
    assert conds[i..][0] == conds[i] && conds[i..][1..] == conds[i + 1..];
    Associative("\n   AND ", conds[i], AndLines(conds[i + 1..]));
    Associative(where, "\n   AND " + conds[i], AndLines(conds[i + 1..]));
  }

  method BuildBlock(job: Job, t: string, conds: seq<string>, omitted: seq<string>) returns (block: string)
    requires TableConds(job, t) != [] && conds == CondTexts(TableConds(job, t))
    requires omitted == Omitted(Columns(job, t), job.keys)
    ensures block == Block(job, t)
  {
    var toAt, fromAt := LinkSuffix(job.toLink), LinkSuffix(job.fromLink);
    var where := JoinConditions(conds);
    var om := OmittedNote(omitted);
    assert t + "" == t;
    block := "-- " + ((t + om) + ("\n" +
             (("DELETE FROM " + ((t + toAt) + ("\n" + (where + ";")))) + ("\n" +
              ("INSERT INTO " + ((t + toAt) + ("\nSELECT * FROM " + ((t + fromAt) + ("\n" + (where + ";"))))))))));
  }

  type Buckets = map<string, seq<string>>

  /** A dictionary of lists, with the empty list for a missing key. */
  function Bucket(m: Buckets, key: string): seq<string> {
    if key in m then m[key] else []
  }

  function Added(m: Buckets, key: string, item: string): Buckets {
    m[key := Bucket(m, key) + [item]]
  }

  /** The buckets hold the generated tables and their blocks, group by group. */
  ghost predicate Bucketed(job: Job, generated: seq<string>, tables: Buckets, blocks: Buckets) {
    && (forall key :: Bucket(tables, key) == Filter(generated, InGroup(key)))
    && (forall key :: Bucket(blocks, key) == Blocks(job, Filter(generated, InGroup(key))))
  }

  lemma BucketsGrow(job: Job, generated: seq<string>, tables: Buckets, blocks: Buckets, t: string)
    requires Bucketed(job, generated, tables, blocks)
    ensures Bucketed(job, generated + [t], Added(tables, GroupKey(t), t), Added(blocks, GroupKey(t), Block(job, t)))
  {
    forall key
      ensures Bucket(Added(tables, GroupKey(t), t), key) == Filter(generated + [t], InGroup(key))
      ensures Bucket(Added(blocks, GroupKey(t), Block(job, t)), key) ==
              Blocks(job, Filter(generated + [t], InGroup(key)))
    {
      BucketGrows(job, generated, tables, blocks, t, GroupKey(t), key);
    }
  }

  lemma BucketGrows(job: Job, generated: seq<string>, tables: Buckets, blocks: Buckets,
                    t: string, own: string, key: string)
    requires InGroup(key)(t) <==> key == own
    requires Bucket(tables, key) == Filter(generated, InGroup(key))
    requires Bucket(blocks, key) == Blocks(job, Filter(generated, InGroup(key)))
    ensures Bucket(Added(tables, own, t), key) == Filter(generated + [t], InGroup(key))
    ensures Bucket(Added(blocks, own, Block(job, t)), key) == Blocks(job, Filter(generated + [t], InGroup(key)))
  {
    FilterSnoc(generated, t, InGroup(key));
    BlocksSnoc(job, Filter(generated, InGroup(key)), t);
  }

  lemma BlocksSnoc(job: Job, ts: seq<string>, t: string)
    ensures Blocks(job, ts + [t]) == Blocks(job, ts) + [Block(job, t)]
  {
    assert (ts + [t])[..|ts|] == ts;
  }

  method CollectGroups(job: Job, generated: seq<string>, order: seq<string>,
                       tables: Buckets, blocks: Buckets) returns (groups: seq<Group>)
    requires Bucketed(job, generated, tables, blocks)
    ensures groups == GroupsOf(job, generated, order)
  {
    groups := [];
    for i := 0 to |order|
      invariant groups == GroupsOf(job, generated, order[..i])
    {
      assert order[..i + 1][..i] == order[..i];
      var key := order[i];
      if Bucket(blocks, key) != [] {
        groups := groups + [Group(key, Join(Bucket(blocks, key), "\n\n"), Bucket(tables, key))];
      }
    }
    assert order[..|order|] == order;
  }

  method WriteScript(noPk: seq<string>, skipped: seq<string>, blocks: seq<string>) returns (sql: string)
    ensures sql == Script(noPk, skipped, blocks)
  {
    var notes: seq<string> := [];
    if noPk != [] {
      notes := notes + [NoteLine(NO_PK, noPk)];
    }
    if skipped != [] {
      notes := notes + [NoteLine(NO_KEYS, skipped)];
    }
    assert notes == Notes(noPk, skipped);
    var parts: seq<string> := [];
    if notes != [] {
      parts := parts + [Join(notes, "\n")];
    }
    if blocks != [] {
      parts := parts + [Join(blocks, "\n\n")];
    }
    assert parts == Part(notes, "\n") + Part(blocks, "\n\n");
    sql := Join(parts, "\n\n");
  }

  method BuildMigrationSql(job: Job, tables: seq<string>) returns (result: MigrationResult)
    ensures result == Result(job, tables)
  {
    var blocks: seq<string>, generated: seq<string>, skipped: seq<string>, noPk: seq<string> := [], [], [], [];
    var groupBlocks: Buckets, groupTables: Buckets := map[], map[];
    for i := 0 to |tables|
      invariant generated == Filter(tables[..i], IsGenerated(job))
      invariant skipped == Filter(tables[..i], IsSkipped(job))
      invariant noPk == Filter(tables[..i], HasNoPk(job))
      invariant blocks == Blocks(job, generated)
      invariant Bucketed(job, generated, groupTables, groupBlocks)
    {
      var t := tables[i];
      TableStep(job, tables, i);
      var cols := Columns(job, t);
      if cols == [] {
        noPk := noPk + [t];
        continue;
      }
      var conds, omitted := SortColumns(cols, job.keys);
      if conds == [] {
        skipped := skipped + [t];
        continue;
      }
      var block := BuildBlock(job, t, conds, omitted);
      BlocksSnoc(job, generated, t);
      BucketsGrow(job, generated, groupTables, groupBlocks, t);
      blocks := blocks + [block];
      generated := generated + [t];
      groupBlocks := Added(groupBlocks, GroupKey(t), block);
      groupTables := Added(groupTables, GroupKey(t), t);
    }
    assert tables[..|tables|] == tables;
    var sql := WriteScript(noPk, skipped, blocks);
    var groups := CollectGroups(job, generated, GROUP_ORDER + [GROUP_OTHER], groupTables, groupBlocks);
    result := MigrationResult(sql, generated, skipped, noPk, groups);
  }

  ghost predicate Grows(tables: seq<string>, i: nat, keep: string -> bool)
    requires i < |tables|
  {
    Filter(tables[..i + 1], keep) ==
    if keep(tables[i]) then Filter(tables[..i], keep) + [tables[i]] else Filter(tables[..i], keep)
  }

  lemma TableStep(job: Job, tables: seq<string>, i: nat)
    requires i < |tables|
    ensures Grows(tables, i, IsGenerated(job)) && Grows(tables, i, IsSkipped(job)) && Grows(tables, i, HasNoPk(job))
  {
    assert tables[..i + 1] == tables[..i] + [tables[i]];
    FilterSnoc(tables[..i], tables[i], IsGenerated(job));
    FilterSnoc(tables[..i], tables[i], IsSkipped(job));
    FilterSnoc(tables[..i], tables[i], HasNoPk(job));
  }
}
