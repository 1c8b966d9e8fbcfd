/** What a migration script does to the databases, statement by statement and as a whole. */
module ScriptMeaning {
  import opened Texts
  import opened KeyConditions
  import opened MigrationScript
  import opened MigrationSql
  import opened MigrationReading

  // Unquoted Oracle names are the same in upper and lower case: tables, links and columns are found by their upper-case
  // spelling.

  /** A row by upper-case column names; a column without an entry is NULL. */
  type Row = map<string, string>

  /** The tables behind all links, by upper-case names; a table without an entry has no rows. */
  type Databases = map<Place, seq<Row>>

  function Spelling(p: Place): Place {
    Place(Upper(p.table), Upper(p.link))
  }

  function TableAt(db: Databases, p: Place): seq<Row> {
    if Spelling(p) in db then db[Spelling(p)] else []
  }

  function Stored(db: Databases, p: Place, rows: seq<Row>): Databases {
    db[Spelling(p) := rows]
  }

  function Cell(row: Row, col: string): Option<string> {
    if Upper(col) in row then Some(row[Upper(col)]) else None
  }

  predicate Matches(c: Cond, row: Row) {
    var cell := Cell(row, c.col);
    cell.Some? &&
    match c
    case Equals(_, v) => cell.value == v
    case OneOf(_, vs) => cell.value in vs
    case Between(_, low, high) => LexLe(low, cell.value) && LexLe(cell.value, high)
  }

  predicate InSlice(conds: seq<Cond>, row: Row) {
    conds == [] || (Matches(conds[0], row) && InSlice(conds[1..], row))
  }

  function Selected(conds: seq<Cond>): Row -> bool {
    (row: Row) => InSlice(conds, row)
  }

  function Unselected(conds: seq<Cond>): Row -> bool {
    (row: Row) => !InSlice(conds, row)
  }

  function Inside(conds: seq<Cond>, rows: seq<Row>): seq<Row> { Filter(rows, Selected(conds)) }
  function Outside(conds: seq<Cond>, rows: seq<Row>): seq<Row> { Filter(rows, Unselected(conds)) }

  // ----- Running statements -----

  function Exec(db: Databases, s: Stmt): Databases {
    match s
    case Delete(target, conds) => Stored(db, target, Outside(conds, TableAt(db, target)))
    case Insert(target, source, conds) =>
      Stored(db, target, TableAt(db, target) + Inside(conds, TableAt(db, source)))
  }

  function Run(db: Databases, stmts: seq<Stmt>): Databases
    decreases |stmts|
  {
    if stmts == [] then db else Run(Exec(db, stmts[0]), stmts[1..])
  }

  /** Running a script given as text; nothing happens unless all of it reads as statements. */
  function RunText(db: Databases, text: string): Option<Databases> {
    match ReadScript(text)
    case None => None
    case Some(stmts) => Some(Run(db, stmts))
  }

  lemma {:induction false} RunOfConcat(db: Databases, a: seq<Stmt>, b: seq<Stmt>)
    ensures Run(db, a + b) == Run(Run(db, a), b)
    decreases |a|
  {
    if a == [] {
      assert a + b == b;
    } else {
      assert (a + b)[0] == a[0] && (a + b)[1..] == a[1..] + b;
      RunOfConcat(Exec(db, a[0]), a[1..], b);
    }
  }

  lemma {:induction false} StmtsOfConcat(job: Job, a: seq<string>, b: seq<string>)
    ensures AllStmts(job, a + b) == AllStmts(job, a) + AllStmts(job, b)
  {
    if a == [] {
      assert a + b == b;
    } else {
      assert (a + b)[0] == a[0] && (a + b)[1..] == a[1..] + b;
      StmtsOfConcat(job, a[1..], b);
      Associative(TableStmts(job, a[0]), AllStmts(job, a[1..]), AllStmts(job, b));
    }
  }

  // ----- What it comes to -----

  predicate SameLink(job: Job) {
    Upper(LinkName(job.fromLink)) == Upper(LinkName(job.toLink))
  }

  /** The spellings of a table's name. */
  function Spells(t: string): string -> bool {
    (u: string) => Upper(u) == Upper(t)
  }

  /** The rows that no listed table's conditions select. */
  function Kept(job: Job, ts: seq<string>, rows: seq<Row>): seq<Row>
    decreases |ts|
  {
    if ts == [] then rows else Kept(job, ts[1..], Outside(TableConds(job, ts[0]), rows))
  }

  /** The rows brought in from `rows`: by each listed table the selected ones, less those that a later one selects. */
  function Brought(job: Job, ts: seq<string>, rows: seq<Row>): seq<Row>
    decreases |ts|
  {
    if ts == [] then []
    else Kept(job, ts[1..], Inside(TableConds(job, ts[0]), rows)) + Brought(job, ts[1..], rows)
  }

  /** Behind one and the same link the rows to bring in are gone by the time they are read. */
  function Copied(job: Job, ts: seq<string>, rows: seq<Row>): seq<Row> {
    if SameLink(job) then [] else Brought(job, ts, rows)
  }

  /** The same table behind the FROM link. */
  function Origin(job: Job, p: Place): Place {
    Place(p.table, LinkName(job.fromLink))
  }

  predicate BehindTo(job: Job, p: Place) {
    Upper(p.link) == Upper(LinkName(job.toLink))
  }

  /** What a place holds after the statements of `ts`: behind the TO link the rows kept and the rows copied by the
      listed spellings of its table, elsewhere what it held. */
  function Final(job: Job, db: Databases, ts: seq<string>, p: Place): seq<Row> {
    if !BehindTo(job, p) then TableAt(db, p)
    else
      var own := Filter(ts, Spells(p.table));
      Kept(job, own, TableAt(db, p)) + Copied(job, own, TableAt(db, Origin(job, p)))
  }

  lemma {:induction false} OutsideTwice(conds: seq<Cond>, rows: seq<Row>)
    ensures Inside(conds, Outside(conds, rows)) == []
  {
    if rows != [] {
      OutsideTwice(conds, rows[1..]);
      FilterAfterFront(rows[0], Outside(conds, rows[1..]), Selected(conds));
    }
  }

  lemma FilterAfterFront(row: Row, rows: seq<Row>, keep: Row -> bool)
    ensures Filter([row] + rows, keep) == (if keep(row) then [row] else []) + Filter(rows, keep)
    ensures Filter([] + rows, keep) == Filter(rows, keep)
  {
    assert ([row] + rows)[1..] == rows;
    assert [] + rows == rows;
  }

  lemma RunPair(db: Databases, a: Stmt, b: Stmt)
    ensures Run(db, [a, b]) == Exec(Exec(db, a), b)
  {
    assert [a, b][1..] == [b];
    assert Run(Exec(db, a), [b]) == Run(Exec(Exec(db, a), b), []);
  }

  lemma DeleteThenInsert(db: Databases, target: Place, source: Place, conds: seq<Cond>, p: Place)
    ensures var end := Exec(Exec(db, Delete(target, conds)), Insert(target, source, conds));
            TableAt(end, p) ==
              if Spelling(p) != Spelling(target) then TableAt(db, p)
              else Outside(conds, TableAt(db, target)) +
                   (if Spelling(source) == Spelling(target) then [] else Inside(conds, TableAt(db, source)))
  {
    OutsideTwice(conds, TableAt(db, target));
  }

  lemma OneListed(job: Job, t: string, name: string, rows: seq<Row>)
    ensures var own := Filter([t], Spells(name));
            && Kept(job, own, rows) == (if Upper(t) == Upper(name) then Outside(TableConds(job, t), rows) else rows)
            && Brought(job, own, rows) == (if Upper(t) == Upper(name) then Inside(TableConds(job, t), rows) else [])
  {
    FilterSnoc([], t, Spells(name));
    assert [] + [t] == [t] && [t][1..] == [];
    var inside := Inside(TableConds(job, t), rows);
    assert Kept(job, [], inside) == inside && inside + [] == inside;
  }

  /** One table's block: its place behind the TO link loses the slice and gets the source's; nothing else changes. */
  lemma BlockMeaning(job: Job, db: Databases, t: string, p: Place)
    ensures TableAt(Run(db, TableStmts(job, t)), p) == Final(job, db, [t], p)
  {
    RunPair(db, TableStmts(job, t)[0], TableStmts(job, t)[1]);
    DeleteThenInsert(db, Target(job, t), Source(job, t), TableConds(job, t), p);
    OneListed(job, t, p.table, TableAt(db, p));
    OneListed(job, t, p.table, TableAt(db, Origin(job, p)));
    OneBlock(job, db, t, p);
  }

  lemma OneBlock(job: Job, db: Databases, t: string, p: Place)
    ensures Spelling(p) == Spelling(Target(job, t)) <==> BehindTo(job, p) && Upper(t) == Upper(p.table)
    ensures Spelling(Source(job, t)) == Spelling(Target(job, t)) <==> SameLink(job)
    ensures Upper(t) == Upper(p.table) ==> TableAt(db, Source(job, t)) == TableAt(db, Origin(job, p))
    ensures TableAt(db, p) + [] == TableAt(db, p)
  {
  }

  // ----- Kept and brought rows -----

  lemma {:induction false} KeptOfConcat(job: Job, ts: seq<string>, a: seq<Row>, b: seq<Row>)
    ensures Kept(job, ts, a + b) == Kept(job, ts, a) + Kept(job, ts, b)
    decreases |ts|
  {
    if ts != [] {
      var conds := TableConds(job, ts[0]);
      FilterOfConcat(a, b, Unselected(conds));
      KeptOfConcat(job, ts[1..], Outside(conds, a), Outside(conds, b));
    }
  }

  /** Some listed table's conditions select `row`. */
  ghost predicate Chosen(job: Job, ts: seq<string>, row: Row) {
    exists t :: t in ts && InSlice(TableConds(job, t), row)
  }

  lemma ChosenAhead(job: Job, t: string, ts: seq<string>, row: Row)
    ensures Chosen(job, [t] + ts, row) <==> InSlice(TableConds(job, t), row) || Chosen(job, ts, row)
  {
    assert forall u :: u in [t] + ts <==> u == t || u in ts;
  }

  lemma {:induction false} KeptAreNotChosen(job: Job, ts: seq<string>, rows: seq<Row>)
    ensures forall row :: row in Kept(job, ts, rows) ==> row in rows && !Chosen(job, ts, row)
    decreases |ts|
  {
    if ts != [] {
      var outside := Outside(TableConds(job, ts[0]), rows);
      KeptAreNotChosen(job, ts[1..], outside);
      assert ts == [ts[0]] + ts[1..];
      forall row | row in Kept(job, ts[1..], outside) ensures row in rows && !Chosen(job, ts, row) {
        ChosenAhead(job, ts[0], ts[1..], row);
      }
    }
  }

  /** Rows that none selects are all kept. */
  lemma {:induction false} KeptAll(job: Job, ts: seq<string>, rows: seq<Row>)
    requires forall row :: row in rows ==> !Chosen(job, ts, row)
    ensures Kept(job, ts, rows) == rows
    decreases |ts|
  {
    if ts != [] {
      assert ts == [ts[0]] + ts[1..];
      forall row | row in rows ensures !InSlice(TableConds(job, ts[0]), row) && !Chosen(job, ts[1..], row) {
        ChosenAhead(job, ts[0], ts[1..], row);
      }
      FilterAll(rows, Unselected(TableConds(job, ts[0])));
      KeptAll(job, ts[1..], rows);
    }
  }

  /** Of rows that each are selected, none is kept. */
  lemma KeptNone(job: Job, ts: seq<string>, rows: seq<Row>)
    requires forall row :: row in rows ==> Chosen(job, ts, row)
    ensures Kept(job, ts, rows) == []
  {
    KeptAreNotChosen(job, ts, rows);
    HasMember(Kept(job, ts, rows));
  }

  lemma {:induction false} BroughtAreChosen(job: Job, ts: seq<string>, rows: seq<Row>)
    ensures forall row :: row in Brought(job, ts, rows) ==> Chosen(job, ts, row)
    decreases |ts|
  {
    if ts != [] {
      var inside := Inside(TableConds(job, ts[0]), rows);
      KeptAreNotChosen(job, ts[1..], inside);
      BroughtAreChosen(job, ts[1..], rows);
      assert ts == [ts[0]] + ts[1..];
      forall row | row in Brought(job, ts, rows) ensures Chosen(job, ts, row) {
        ChosenAhead(job, ts[0], ts[1..], row);
      }
    }
  }

  /** No listed table selects any of `rows`. */
  ghost predicate NoneSelects(job: Job, ts: seq<string>, rows: seq<Row>) {
    forall t :: t in ts ==> Inside(TableConds(job, t), rows) == []
  }

  lemma NothingSelected(job: Job, ts: seq<string>, some: seq<Row>, rows: seq<Row>)
    requires forall row :: row in some ==> row in rows
    requires NoneSelects(job, ts, rows)
    ensures Kept(job, ts, some) == some
  {
    forall row | row in some ensures !Chosen(job, ts, row) {
      forall t | t in ts ensures !InSlice(TableConds(job, t), row) {
        assert row !in Inside(TableConds(job, t), rows);
      }
    }
    KeptAll(job, ts, some);
  }

  lemma NoneSelectsAhead(job: Job, t: string, rest: seq<string>, rows: seq<Row>)
    ensures NoneSelects(job, [t] + rest, rows) <==>
            Inside(TableConds(job, t), rows) == [] && NoneSelects(job, rest, rows)
  {
    assert t in [t] + rest && forall u :: u in [t] + rest <==> u == t || u in rest;
  }

  lemma BroughtAhead(job: Job, t: string, rest: seq<string>, rows: seq<Row>)
    ensures Brought(job, [t] + rest, rows) == [] <==>
            Kept(job, rest, Inside(TableConds(job, t), rows)) == [] && Brought(job, rest, rows) == []
  {
    assert ([t] + rest)[0] == t && ([t] + rest)[1..] == rest;
  }

  /** Nothing is brought in exactly when no listed table selects anything. */
  lemma {:induction false} NothingIsBrought(job: Job, ts: seq<string>, rows: seq<Row>)
    ensures Brought(job, ts, rows) == [] <==> NoneSelects(job, ts, rows)
    decreases |ts|
  {
    if ts != [] {
      var t, rest := ts[0], ts[1..];
      NothingIsBrought(job, rest, rows);
      assert ts == [t] + rest;
      NoneSelectsAhead(job, t, rest, rows);
      BroughtAhead(job, t, rest, rows);
      if NoneSelects(job, rest, rows) {
        NothingSelected(job, rest, Inside(TableConds(job, t), rows), rows);
      }
    }
  }

  // ----- Whole scripts -----

  /** The statements of any table list, repeats and different spellings included. */
  lemma {:induction false} StmtsMeaning(job: Job, db: Databases, ts: seq<string>, p: Place)
    ensures TableAt(Run(db, AllStmts(job, ts)), p) == Final(job, db, ts, p)
    decreases |ts|
  {
    if ts == [] {
      NoneListed(job, db, p);
    } else {
      var t, rest := ts[0], ts[1..];
      var next := RunAhead(job, db, t, rest);
      StmtsMeaning(job, next, rest, p);
      StepMeaning(job, db, t, rest, p);
      assert ts == [t] + rest;
    }
  }

  lemma RunAhead(job: Job, db: Databases, t: string, rest: seq<string>) returns (next: Databases)
    ensures next == Run(db, TableStmts(job, t))
    ensures Run(db, AllStmts(job, [t] + rest)) == Run(next, AllStmts(job, rest))
  {
    next := Run(db, TableStmts(job, t));
    RunOfConcat(db, TableStmts(job, t), AllStmts(job, rest));
    assert ([t] + rest)[0] == t && ([t] + rest)[1..] == rest;
  }

  lemma NoneListed(job: Job, db: Databases, p: Place)
    ensures Final(job, db, [], p) == TableAt(db, p)
  {
    assert TableAt(db, p) + [] == TableAt(db, p);
  }

  lemma StepMeaning(job: Job, db: Databases, t: string, rest: seq<string>, p: Place)
    ensures Final(job, Run(db, TableStmts(job, t)), rest, p) == Final(job, db, [t] + rest, p)
  {
    BlockMeaning(job, db, t, p);
    BlockMeaning(job, db, t, Origin(job, p));
    FinalAfterOne(job, db, Run(db, TableStmts(job, t)), t, rest, p);
  }

  lemma FinalAfterOne(job: Job, db: Databases, next: Databases, t: string, rest: seq<string>, p: Place)
    requires TableAt(next, p) == Final(job, db, [t], p)
    requires TableAt(next, Origin(job, p)) == Final(job, db, [t], Origin(job, p))
    ensures Final(job, next, rest, p) == Final(job, db, [t] + rest, p)
  {
    if BehindTo(job, p) {
      var first, own := Filter([t], Spells(p.table)), Filter(rest, Spells(p.table));
      FilterOfConcat([t], rest, Spells(p.table));
      var rows, from := TableAt(db, p), TableAt(db, Origin(job, p));
      assert !SameLink(job) ==> TableAt(next, Origin(job, p)) == from;
      KeptOfConcat(job, own, Kept(job, first, rows), Copied(job, first, from));
      OneListed(job, t, p.table, rows);
      OneListed(job, t, p.table, from);
      FirstThenOwn(job, t, p.table, first, own, rows, from);
    }
  }

  lemma FirstThenOwn(job: Job, t: string, name: string, first: seq<string>, own: seq<string>,
                     rows: seq<Row>, from: seq<Row>)
    requires first == Filter([t], Spells(name))
    ensures Kept(job, own, Kept(job, first, rows)) == Kept(job, first + own, rows)
    ensures (Kept(job, own, Kept(job, first, rows)) + Kept(job, own, Copied(job, first, from))) + Copied(job, own, from)
            == Kept(job, first + own, rows) + Copied(job, first + own, from)
  {
    FilterSnoc([], t, Spells(name));
    assert [] + [t] == [t];
    OneListed(job, t, name, rows);
    OneListed(job, t, name, from);
    var kept := Kept(job, own, Kept(job, first, rows));
    Associative(kept, Kept(job, own, Copied(job, first, from)), Copied(job, own, from));
    if first == [] {
      assert first + own == own;
      KeptAll(job, own, []);
      assert [] + Copied(job, own, from) == Copied(job, own, from);
    } else {
      assert first == [t] && ([t] + own)[0] == t && ([t] + own)[1..] == own;
      KeptAll(job, own, []);
    }
  }

  /** A second run changes nothing. */
  lemma RerunChangesNothing(job: Job, db: Databases, ts: seq<string>, p: Place)
    ensures var once := Run(db, AllStmts(job, ts));
            TableAt(Run(once, AllStmts(job, ts)), p) == TableAt(once, p)
  {
    var once := Run(db, AllStmts(job, ts));
    StmtsMeaning(job, once, ts, p);
    StmtsMeaning(job, db, ts, p);
    StmtsMeaning(job, db, ts, Origin(job, p));
    var own := Filter(ts, Spells(p.table));
    RefreshedTwice(job, own, TableAt(db, p), TableAt(db, Origin(job, p)));
  }

  lemma RefreshedTwice(job: Job, ts: seq<string>, rows: seq<Row>, from: seq<Row>)
    ensures Kept(job, ts, Kept(job, ts, rows) + Copied(job, ts, from)) == Kept(job, ts, rows)
  {
    var kept, copied := Kept(job, ts, rows), Copied(job, ts, from);
    KeptOfConcat(job, ts, kept, copied);
    KeptAreNotChosen(job, ts, rows);
    KeptAll(job, ts, kept);
    BroughtAreChosen(job, ts, from);
    KeptNone(job, ts, copied);
    assert kept + [] == kept;
  }

  // ----- What the migration is for -----

  /** The target's rows outside the slices, and the source's rows inside them. */
  function Intended(job: Job, db: Databases, ts: seq<string>, p: Place): seq<Row> {
    if !BehindTo(job, p) then TableAt(db, p)
    else
      var own := Filter(ts, Spells(p.table));
      Kept(job, own, TableAt(db, p)) + Brought(job, own, TableAt(db, Origin(job, p)))
  }

  /** The script does what it is for exactly when the links differ, letter case aside, or no table has a row in its
      slice to lose. */
  lemma IntendedExactly(job: Job, db: Databases, ts: seq<string>)
    ensures (forall p :: TableAt(Run(db, AllStmts(job, ts)), p) == Intended(job, db, ts, p)) <==>
            (!SameLink(job) || forall t :: t in ts ==> Inside(TableConds(job, t), TableAt(db, Source(job, t))) == [])
  {
    forall p ensures TableAt(Run(db, AllStmts(job, ts)), p) == Final(job, db, ts, p) {
      StmtsMeaning(job, db, ts, p);
    }
    if forall t :: t in ts ==> Inside(TableConds(job, t), TableAt(db, Source(job, t))) == [] {
      forall p ensures Final(job, db, ts, p) == Intended(job, db, ts, p) {
        NothingToLose(job, db, ts, p);
      }
    }
    if SameLink(job) && forall p :: TableAt(Run(db, AllStmts(job, ts)), p) == Intended(job, db, ts, p) {
      forall t | t in ts ensures Inside(TableConds(job, t), TableAt(db, Source(job, t))) == [] {
        assert TableAt(Run(db, AllStmts(job, ts)), Target(job, t)) == Intended(job, db, ts, Target(job, t));
        NothingLost(job, db, ts, t);
      }
    }
  }

  lemma NothingToLose(job: Job, db: Databases, ts: seq<string>, p: Place)
    requires forall t :: t in ts ==> Inside(TableConds(job, t), TableAt(db, Source(job, t))) == []
    ensures Final(job, db, ts, p) == Intended(job, db, ts, p)
  {
    var from := TableAt(db, Origin(job, p));
    forall t | t in ts && Upper(t) == Upper(p.table) ensures Inside(TableConds(job, t), from) == [] {
      OneBlock(job, db, t, p);
    }
    NoSpellingSelects(job, ts, p.table, from);
  }

  lemma NoSpellingSelects(job: Job, ts: seq<string>, name: string, rows: seq<Row>)
    requires forall t :: t in ts && Upper(t) == Upper(name) ==> Inside(TableConds(job, t), rows) == []
    ensures Brought(job, Filter(ts, Spells(name)), rows) == []
  {
    var own := Filter(ts, Spells(name));
    forall t | t in own ensures Inside(TableConds(job, t), rows) == [] {
      assert Spells(name)(t);
    }
    NothingIsBrought(job, own, rows);
  }

  lemma NothingLost(job: Job, db: Databases, ts: seq<string>, t: string)
    requires t in ts && SameLink(job) && Final(job, db, ts, Target(job, t)) == Intended(job, db, ts, Target(job, t))
    ensures Inside(TableConds(job, t), TableAt(db, Source(job, t))) == []
  {
    var own, from := Filter(ts, Spells(t)), TableAt(db, Source(job, t));
    var kept, brought := Kept(job, own, TableAt(db, Target(job, t))), Brought(job, own, from);
    assert |kept + []| == |kept| && |kept + brought| == |kept| + |brought|;
    NothingIsBrought(job, own, from);
    assert Spells(t)(t) && t in own;
  }

  // ----- One spelling -----

  function Refreshed(job: Job, db: Databases, t: string): seq<Row> {
    Outside(TableConds(job, t), TableAt(db, Target(job, t))) +
    (if SameLink(job) then [] else Inside(TableConds(job, t), TableAt(db, Source(job, t))))
  }

  /** A table whose listed spellings are restricted alike is refreshed once, however often it is listed. */
  lemma RefreshedOnce(job: Job, db: Databases, ts: seq<string>, t: string)
    requires t in ts && forall u :: u in ts && Upper(u) == Upper(t) ==> TableConds(job, u) == TableConds(job, t)
    ensures Final(job, db, ts, Target(job, t)) == Refreshed(job, db, t)
  {
    var own, conds := Filter(ts, Spells(t)), TableConds(job, t);
    OwnAlike(job, ts, t, conds);
    var rows, from := TableAt(db, Target(job, t)), TableAt(db, Source(job, t));
    AlikeOnce(job, own, conds, rows);
    AlikeOnce(job, own, conds, from);
    assert Final(job, db, ts, Target(job, t)) == Kept(job, own, rows) + Copied(job, own, from);
  }

  lemma OwnAlike(job: Job, ts: seq<string>, t: string, conds: seq<Cond>)
    requires t in ts && forall u :: u in ts && Upper(u) == Upper(t) ==> TableConds(job, u) == conds
    ensures Filter(ts, Spells(t)) != [] && forall u :: u in Filter(ts, Spells(t)) ==> TableConds(job, u) == conds
  {
    assert Spells(t)(t) && t in Filter(ts, Spells(t));
    forall u | u in Filter(ts, Spells(t)) ensures TableConds(job, u) == conds {
      assert Spells(t)(u);
    }
  }

  lemma {:induction false} AlikeOnce(job: Job, ts: seq<string>, conds: seq<Cond>, rows: seq<Row>)
    requires ts != [] && forall u :: u in ts ==> TableConds(job, u) == conds
    ensures Kept(job, ts, rows) == Outside(conds, rows) && Brought(job, ts, rows) == Inside(conds, rows)
    decreases |ts|
  {
    var rest, inside := ts[1..], Inside(conds, rows);
    assert ts[0] in ts;
    AlikeChosen(job, rest, conds);
    KeptAll(job, rest, Outside(conds, rows));
    if rest == [] {
      assert inside + [] == inside;
    } else {
      AlikeOnce(job, rest, conds, rows);
      KeptNone(job, rest, inside);
      assert [] + inside == inside;
    }
  }

  lemma AlikeChosen(job: Job, ts: seq<string>, conds: seq<Cond>)
    requires forall u :: u in ts ==> TableConds(job, u) == conds
    ensures forall row :: !InSlice(conds, row) ==> !Chosen(job, ts, row)
    ensures ts != [] ==> forall row :: InSlice(conds, row) ==> Chosen(job, ts, row)
  {
    if ts != [] {
      forall row | InSlice(conds, row) ensures Chosen(job, ts, row) {
        assert ts[0] in ts;
      }
    }
  }

  // ----- Primary keys -----

  ghost predicate SameKey(cols: seq<string>, a: Row, b: Row) {
    forall col :: col in cols ==> Cell(a, col) == Cell(b, col)
  }

  ghost predicate UniqueKeys(cols: seq<string>, rows: seq<Row>) {
    forall i, j :: 0 <= i < j < |rows| ==> !SameKey(cols, rows[i], rows[j])
  }

  /** Whether a row is in the slice depends on its key alone. */
  lemma {:induction false} SliceByKey(cols: seq<string>, conds: seq<Cond>, a: Row, b: Row)
    requires SameKey(cols, a, b) && forall c :: c in conds ==> c.col in cols
    ensures InSlice(conds, a) == InSlice(conds, b)
  {
    if conds != [] {
      assert conds[0] in conds && Cell(a, conds[0].col) == Cell(b, conds[0].col);
      SliceByKey(cols, conds[1..], a, b);
    }
  }

  lemma FilterKeepsKeys(cols: seq<string>, rows: seq<Row>, keep: Row -> bool)
    requires UniqueKeys(cols, rows)
    ensures UniqueKeys(cols, Filter(rows, keep))
  {
    var kept := Filter(rows, keep);
    forall i, j | 0 <= i < j < |kept| ensures !SameKey(cols, kept[i], kept[j]) {
      var k, m := FilterKeepsOrder(rows, keep, i, j);
    }
  }

  /** When both sides keep their primary keys unique, so does the refreshed table: no INSERT meets a row with its
      key. */
  lemma KeysStayUnique(job: Job, db: Databases, t: string)
    requires UniqueKeys(Columns(job, t), TableAt(db, Target(job, t)))
    requires UniqueKeys(Columns(job, t), TableAt(db, Source(job, t)))
    ensures UniqueKeys(Columns(job, t), Refreshed(job, db, t))
  {
    var cols, conds := Columns(job, t), TableConds(job, t);
    var to, from := TableAt(db, Target(job, t)), TableAt(db, Source(job, t));
    forall c | c in conds ensures c.col in cols {
      ConditionColumns(cols, job.keys, c);
    }
    SlicesKeepKeys(cols, conds, to, from);
  }

  lemma SlicesKeepKeys(cols: seq<string>, conds: seq<Cond>, to: seq<Row>, from: seq<Row>)
    requires UniqueKeys(cols, to) && UniqueKeys(cols, from) && forall c :: c in conds ==> c.col in cols
    ensures UniqueKeys(cols, Outside(conds, to) + Inside(conds, from))
    ensures UniqueKeys(cols, Outside(conds, to) + [])
  {
    FilterKeepsKeys(cols, to, Unselected(conds));
    FilterKeepsKeys(cols, from, Selected(conds));
    SidesKeepKeys(cols, conds, Outside(conds, to), Inside(conds, from));
    assert Outside(conds, to) + [] == Outside(conds, to);
  }

  lemma SidesKeepKeys(cols: seq<string>, conds: seq<Cond>, outs: seq<Row>, ins: seq<Row>)
    requires forall c :: c in conds ==> c.col in cols
    requires UniqueKeys(cols, outs) && forall r :: r in outs ==> !InSlice(conds, r)
    requires UniqueKeys(cols, ins) && forall r :: r in ins ==> InSlice(conds, r)
    ensures UniqueKeys(cols, outs + ins)
  {
    var rows := outs + ins;
    forall i, j | 0 <= i < j < |rows| ensures !SameKey(cols, rows[i], rows[j]) {
      if i < |outs| <= j && SameKey(cols, rows[i], rows[j]) {
        assert rows[i] in outs && rows[j] in ins;
        SliceByKey(cols, conds, rows[i], rows[j]);
      }
    }
  }
}
