/** What a migration request gets, in terms of its keys, tables and rows alone. */
module MigrationAnswer {
  import opened Texts
  import opened KeyConditions
  import opened MigrationScript
  import opened MigrationSql
  import opened MigrationReading
  import opened ScriptMeaning
  import opened ScriptGroups
  import opened KeyMeaning
  import opened PkDictionary

  // ----- The rows -----

  ghost function InTheSlice(job: Job, t: string): Row -> bool {
    (row: Row) => Wanted(job, t, row)
  }

  ghost function NotInTheSlice(job: Job, t: string): Row -> bool {
    (row: Row) => !Wanted(job, t, row)
  }

  lemma SlicesAgree(job: Job, t: string, rows: seq<Row>)
    requires t in job.pkMap
    ensures Inside(TableConds(job, t), rows) == Filter(rows, InTheSlice(job, t))
    ensures Outside(TableConds(job, t), rows) == Filter(rows, NotInTheSlice(job, t))
  {
    forall row { SliceExactly(job, t, row); }
    FilterAgrees(rows, Selected(TableConds(job, t)), InTheSlice(job, t));
    FilterAgrees(rows, Unselected(TableConds(job, t)), NotInTheSlice(job, t));
  }

  /** The script of a readable request in upper-case names: of a table with input the target keeps the rows that
      the keys do not ask for, in their order, and gets behind them the source's rows that they ask for. */
  lemma ScriptMovesTheSlice(job: Job, db: Databases, tables: seq<string>, t: string)
    requires Readable(job, tables) && !SameLink(job) && forall u :: u in tables ==> Upper(u) == u
    requires t in tables && t in job.pkMap && exists col :: col in job.pkMap[t] && Restricts(job, col)
    ensures var end := RunText(db, Result(job, tables).sql);
            && end.Some?
            && TableAt(end.value, Place(t, LinkName(job.toLink))) ==
               Filter(TableAt(db, Place(t, LinkName(job.toLink))), NotInTheSlice(job, t)) +
               Filter(TableAt(db, Place(t, LinkName(job.fromLink))), InTheSlice(job, t))
  {
    ClassExactly(job, t);
    TextRefreshes(job, db, tables, t, Target(job, t));
    SlicesAgree(job, t, TableAt(db, Target(job, t)));
    SlicesAgree(job, t, TableAt(db, Source(job, t)));
  }

  /** Everything else stays: places behind other links, and tables without input. */
  lemma NothingElseMoves(job: Job, db: Databases, tables: seq<string>, p: Place)
    requires Readable(job, tables) && forall u :: u in tables ==> Upper(u) == u
    requires Upper(p.link) != Upper(LinkName(job.toLink)) || Upper(p.table) !in tables
             || !Generated(job)(Upper(p.table))
    ensures var end := RunText(db, Result(job, tables).sql);
            end.Some? && TableAt(end.value, p) == TableAt(db, p)
  {
    ClassExactly(job, Upper(p.table));
    TextRefreshes(job, db, tables, "", p);
  }

  // ----- A whole request -----

  /** The row is in the slice that a table's dictionary key and the entered keys ask for. */
  ghost predicate AskedFor(rows: seq<DictRow>, keys: map<string, KeyCond>, t: string, row: Row) {
    forall d :: d in rows && d.tableId == t && d.pkColumn in keys && Entered(keys[d.pkColumn]) ==>
      Upper(d.pkColumn) in row && AsksFor(keys[d.pkColumn], row[Upper(d.pkColumn)])
  }

  ghost function AskedRows(rows: seq<DictRow>, keys: map<string, KeyCond>, t: string): Row -> bool {
    (row: Row) => AskedFor(rows, keys, t, row)
  }

  ghost function OtherRows(rows: seq<DictRow>, keys: map<string, KeyCond>, t: string): Row -> bool {
    (row: Row) => !AskedFor(rows, keys, t, row)
  }

  lemma {:induction false} KeyColumnsMembers(rows: seq<DictRow>, t: string, col: string)
    ensures col in KeyColumns(rows, t) <==> exists d :: d in rows && d.tableId == t && d.pkColumn == col
  {
    if rows != [] {
      KeyColumnsMembers(rows[1..], t, col);
      assert rows == [rows[0]] + rows[1..];
      assert forall d :: d in rows <==> d == rows[0] || d in rows[1..];
    }
  }

  lemma WantedIsAskedFor(job: Job, rows: seq<DictRow>, t: string, row: Row)
    requires t in job.pkMap && job.pkMap[t] == KeyColumns(rows, t)
    ensures Wanted(job, t, row) <==> AskedFor(rows, job.keys, t, row)
  {
    forall col { KeyColumnsMembers(rows, t, col); }
    if AskedFor(rows, job.keys, t, row) {
      forall col | col in job.pkMap[t] && Restricts(job, col)
        ensures Upper(col) in row && AsksFor(job.keys[col], row[Upper(col)])
      {
        var d :| d in rows && d.tableId == t && d.pkColumn == col;
      }
    }
    if Wanted(job, t, row) {
      forall d | d in rows && d.tableId == t && d.pkColumn in job.keys && Entered(job.keys[d.pkColumn])
        ensures Upper(d.pkColumn) in row && AsksFor(job.keys[d.pkColumn], row[Upper(d.pkColumn)])
      {
        assert d.pkColumn in job.pkMap[t] && Restricts(job, d.pkColumn);
      }
    }
  }

  lemma RequestedIsUpper(tables: seq<string>)
    ensures forall u :: u in Normalised(tables) ==> Upper(u) == u
  {
    forall u | u in Normalised(tables) ensures Upper(u) == u {
      NamesAreRequested(tables, u);
      var t :| t in tables && Upper(Strip(t)) == u;
      UpperTwice(Strip(t));
    }
  }

  /** A request end to end: behind the TO link a requested table with an entered key column keeps the rows not asked for
      and gets behind them the rows asked for from behind the FROM link. */
  lemma RequestMovesTheSlice(tables: seq<string>, keys: map<string, KeyCond>, fromLink: string, toLink: string,
                             rows: seq<DictRow>, db: Databases, t: string)
    requires Requested(tables, t) && Upper(LinkName(fromLink)) != Upper(LinkName(toLink))
    requires exists d :: d in rows && d.tableId == t && d.pkColumn in keys && Entered(keys[d.pkColumn])
    requires Fetched(Normalised(tables), Some(rows)).Some?
    requires Readable(Job(Fetched(Normalised(tables), Some(rows)).value, keys, fromLink, toLink), Normalised(tables))
    ensures var result := Migrated(tables, keys, fromLink, toLink, Some(rows));
            && result.Some? && RunText(db, result.value.sql).Some?
            && TableAt(RunText(db, result.value.sql).value, Place(t, LinkName(toLink))) ==
               Filter(TableAt(db, Place(t, LinkName(toLink))), OtherRows(rows, keys, t)) +
               Filter(TableAt(db, Place(t, LinkName(fromLink))), AskedRows(rows, keys, t))
  {
    var names := Normalised(tables);
    var job := Job(Fetched(names, Some(rows)).value, keys, fromLink, toLink);
    NamesAreRequested(tables, t);
    RequestedIsUpper(tables);
    assert job.pkMap[t] == KeyColumns(rows, t);
    var d :| d in rows && d.tableId == t && d.pkColumn in keys && Entered(keys[d.pkColumn]);
    KeyColumnsMembers(rows, t, d.pkColumn);
    assert Restricts(job, d.pkColumn);
    ScriptMovesTheSlice(job, db, names, t);
    forall row { WantedIsAskedFor(job, rows, t, row); }
    FilterAgrees(TableAt(db, Target(job, t)), NotInTheSlice(job, t), OtherRows(rows, keys, t));
    FilterAgrees(TableAt(db, Source(job, t)), InTheSlice(job, t), AskedRows(rows, keys, t));
  }

  // ----- The text -----

  /** A block begins with a comment that names the table and its PK columns without input. */
  lemma BlockBegins(job: Job, t: string) returns (rest: string)
    requires Generated(job)(t)
    ensures var missing := Filter(job.pkMap[t], NoInput(job));
            Result(job, [t]).sql ==
            "-- " + (t + ((if missing == [] then "" else "  (미입력 조건 제외: " + (Join(missing, ", ") + ")")) +
                          ("\n" + rest)))
  {
    ClassExactly(job, t);
    ConditionsInColumnOrder(job, job.pkMap[t]);
    OneTable(job, t);
    rest := StmtText(TableStmts(job, t)[0]) + ("\n" + StmtText(TableStmts(job, t)[1]));
    Associative(t, OmittedNote(Omitted(Columns(job, t), job.keys)), "\n" + rest);
  }

  lemma OneTable(job: Job, t: string)
    requires IsGenerated(job)(t)
    ensures Result(job, [t]).sql == Block(job, t)
  {
    AllGeneratedText(job, [t]);
    assert Blocks(job, [t]) == [Block(job, t)];
  }

  lemma NoneLeftOut(job: Job, ts: seq<string>)
    requires forall t :: t in ts ==> IsGenerated(job)(t)
    ensures var r := Result(job, ts); r.generated == ts && r.skipped == [] && r.noPk == []
  {
    var r := Result(job, ts);
    forall t | t in ts ensures !IsSkipped(job)(t) && !HasNoPk(job)(t) {
      OneClass(job, t);
    }
    FilterAll(ts, IsGenerated(job));
    HasMember(r.skipped);
    HasMember(r.noPk);
  }

  lemma AllGeneratedText(job: Job, ts: seq<string>)
    requires forall t :: t in ts ==> IsGenerated(job)(t)
    ensures Result(job, ts).sql == Join(Blocks(job, ts), "\n\n")
  {
    NoneLeftOut(job, ts);
    PartsText([], Blocks(job, ts));
    assert Notes([], []) == [];
  }

  lemma {:induction false} JoinOfConcat(a: seq<string>, b: seq<string>, sep: string)
    requires a != [] && b != []
    ensures Join(a + b, sep) == Join(a, sep) + (sep + Join(b, sep))
  {
    if |a| == 1 {
      assert (a + b)[1..] == b;
    } else {
      assert (a + b)[0] == a[0] && (a + b)[1..] == a[1..] + b;
      JoinOfConcat(a[1..], b, sep);
      Associative(sep, Join(a[1..], sep), sep + Join(b, sep));
      Associative(a[0], sep + Join(a[1..], sep), sep + Join(b, sep));
    }
  }

  lemma {:induction false} BlocksOfConcat(job: Job, a: seq<string>, b: seq<string>)
    ensures Blocks(job, a + b) == Blocks(job, a) + Blocks(job, b)
  {
    if b == [] {
      assert a + b == a;
    } else {
      var front, last := b[..|b| - 1], b[|b| - 1];
      assert (a + b)[..|a + b| - 1] == a + front;
      BlocksOfConcat(job, a, front);
    }
  }

  /** Generated tables one after the other: their texts, a blank line between them. */
  lemma TextsFollowEachOther(job: Job, a: seq<string>, b: seq<string>)
    requires a != [] && b != [] && forall t :: t in a + b ==> Generated(job)(t)
    ensures Result(job, a + b).sql == Result(job, a).sql + ("\n\n" + Result(job, b).sql)
  {
    forall t { ClassExactly(job, t); }
    AllGeneratedText(job, a + b);
    AllGeneratedText(job, a);
    AllGeneratedText(job, b);
    BlocksOfConcat(job, a, b);
    JoinOfConcat(Blocks(job, a), Blocks(job, b), "\n\n");
  }

  /** A group's text is the text that a request for its tables alone gets. */
  lemma {:induction false} GroupTextIsItsOwn(job: Job, generated: seq<string>, order: seq<string>, g: Group)
    requires g in GroupsOf(job, generated, order) && forall t :: t in generated ==> IsGenerated(job)(t)
    ensures g.sql == Result(job, g.tables).sql
  {
    var front, key := order[..|order| - 1], order[|order| - 1];
    var ts := Filter(generated, InGroup(key));
    if g in GroupsOf(job, generated, front) {
      GroupTextIsItsOwn(job, generated, front, g);
    } else {
      AllGeneratedText(job, ts);
    }
  }

  /** The lines that name the tables without a key and those without input. */
  lemma NoteTexts(ts: seq<string>)
    ensures NoteLine(NO_PK, ts) == "-- (PK 정보 없어 제외) " + Join(ts, ", ")
    ensures NoteLine(NO_KEYS, ts) == "-- (입력한 키가 없어 제외: 전체 삭제 방지) " + Join(ts, ", ")
  {
    Associative("-- ", NO_PK, Join(ts, ", "));
    Associative("-- ", NO_KEYS, Join(ts, ", "));
  }

  /** Tables without a key, and tables without input, are named in a comment line each, in front of the blocks. */
  lemma NotesComeFirst(job: Job, tables: seq<string>)
    ensures var r := Result(job, tables);
            r.sql == WithNotes(r.noPk, r.skipped, r.generated, Result(job, r.generated).sql)
  {
    var r := Result(job, tables);
    AllGeneratedText(job, r.generated);
    NotesInFront(r.noPk, r.skipped, Blocks(job, r.generated));
    assert |Blocks(job, r.generated)| == |r.generated|;
  }

  /** The notes that there are, a line each, a blank line, and the text that there is. */
  function WithNotes(noPk: seq<string>, skipped: seq<string>, generated: seq<string>, text: string): string {
    var noKey, noInput := NoteLine(NO_PK, noPk), NoteLine(NO_KEYS, skipped);
    var notes := if noPk == [] then noInput else if skipped == [] then noKey else noKey + ("\n" + noInput);
    if noPk == [] && skipped == [] then text
    else if generated == [] then notes
    else (notes + "\n\n") + text
  }

  lemma NotesInFront(noPk: seq<string>, skipped: seq<string>, blocks: seq<string>)
    ensures Script(noPk, skipped, blocks) == WithNotes(noPk, skipped, blocks, Join(blocks, "\n\n"))
  {
    PartsText(Notes(noPk, skipped), blocks);
    NotesJoined(noPk, skipped);
  }

  lemma NotesJoined(noPk: seq<string>, skipped: seq<string>)
    ensures Notes(noPk, skipped) == [] <==> noPk == [] && skipped == []
    ensures var noKey, noInput := NoteLine(NO_PK, noPk), NoteLine(NO_KEYS, skipped);
            noPk != [] || skipped != [] ==>
              Join(Notes(noPk, skipped), "\n") ==
              if noPk == [] then noInput else if skipped == [] then noKey else noKey + ("\n" + noInput)
  {
    var noKey, noInput := NoteLine(NO_PK, noPk), NoteLine(NO_KEYS, skipped);
    JoinTwo(noKey, noInput, "\n");
    assert [noKey] + [noInput] == [noKey, noInput] && [noKey] + [] == [noKey] && [] + [noInput] == [noInput];
  }
}
