/** What the generated script says: its text reads back as the intended statements, and nothing else. */
module MigrationReading {
  import opened Texts
  import opened KeyConditions
  import opened MigrationScript
  import opened MigrationSql
  import opened ScriptLayout

  /** The statements of a list of tables, in order. */
  function AllStmts(job: Job, ts: seq<string>): seq<Stmt> {
    if ts == [] then [] else TableStmts(job, ts[0]) + AllStmts(job, ts[1..])
  }

  predicate SoundLinks(job: Job) {
    SoundLink(LinkName(job.fromLink)) && SoundLink(LinkName(job.toLink))
  }

  /** A block's heading: the table, and its PK columns without input. */
  function Head(job: Job, t: string): string {
    "-- " + (t + OmittedNote(Omitted(Columns(job, t), job.keys)))
  }

  /** What a generated table needs to be read off its block: it and the columns it is restricted by are names, and no
      column name breaks out of the heading. */
  predicate ReadableTable(job: Job, t: string) {
    Name(t) && AllSound(TableConds(job, t)) && Quiet(Head(job, t))
  }

  ghost predicate ReadableTables(job: Job, ts: seq<string>) {
    ts != [] ==> SoundLinks(job) && forall t :: t in ts ==> ReadableTable(job, t)
  }

  function NotesText(noPk: seq<string>, skipped: seq<string>): string {
    Join(Notes(noPk, skipped), "\n")
  }

  /** What a request needs to be read off its script; the last clause says that no table name breaks out of a note. */
  ghost predicate Readable(job: Job, tables: seq<string>) {
    var r := Result(job, tables);
    ReadableTables(job, r.generated) && Quiet(NotesText(r.noPk, r.skipped))
  }

  // ----- Classification -----

  /** A table is in exactly one class, decided by its PK columns and the input alone. */
  lemma OneClass(job: Job, t: string)
    ensures IsGenerated(job)(t) ==> !IsSkipped(job)(t) && !HasNoPk(job)(t)
    ensures IsSkipped(job)(t) ==> !HasNoPk(job)(t)
    ensures IsGenerated(job)(t) || IsSkipped(job)(t) || HasNoPk(job)(t)
  {
  }

  /** Every table occurrence lands in exactly one of generated, skipped and no_pk. */
  lemma EveryOccurrenceIsClassified(job: Job, tables: seq<string>)
    ensures multiset(Filter(tables, IsGenerated(job))) + multiset(Filter(tables, IsSkipped(job)))
            + multiset(Filter(tables, HasNoPk(job))) == multiset(tables)
  {
    forall t: string
      ensures IsGenerated(job)(t) ==> !IsSkipped(job)(t) && !HasNoPk(job)(t)
      ensures IsSkipped(job)(t) ==> !HasNoPk(job)(t)
      ensures IsGenerated(job)(t) || IsSkipped(job)(t) || HasNoPk(job)(t)
    {
      OneClass(job, t);
    }
    FiltersPartition(tables, IsGenerated(job), IsSkipped(job), HasNoPk(job));
  }

  lemma {:induction false} ConditionColumns(cols: seq<string>, keys: map<string, KeyCond>, c: Cond)
    requires c in Conditions(cols, keys)
    ensures c.col in cols && c.col in keys && Asked(c.col, keys[c.col]) == Some(c)
  {
    if c in Conditions(cols[1..], keys) {
      ConditionColumns(cols[1..], keys, c);
    }
  }

  lemma {:induction false} StmtsAreOfTables(job: Job, ts: seq<string>, s: Stmt) returns (t: string)
    requires s in AllStmts(job, ts)
    ensures t in ts && s in TableStmts(job, t)
  {
    if s in TableStmts(job, ts[0]) {
      t := ts[0];
    } else {
      t := StmtsAreOfTables(job, ts[1..], s);
    }
  }

  lemma StmtIsRestricted(job: Job, t: string, s: Stmt)
    requires TableConds(job, t) != [] && s in TableStmts(job, t)
    ensures s.conds != [] && s.target.table == t
    ensures forall c :: c in s.conds ==>
              c.col in Columns(job, t) && c.col in job.keys && Asked(c.col, job.keys[c.col]) == Some(c)
  {
    forall c | c in TableConds(job, t)
      ensures c.col in Columns(job, t) && c.col in job.keys && Asked(c.col, job.keys[c.col]) == Some(c)
    {
      ConditionColumns(Columns(job, t), job.keys, c);
    }
  }

  /** Every statement carries a condition, and each one is the input of one of its own table's PK columns. */
  lemma NoUnconditionalStatement(job: Job, tables: seq<string>, s: Stmt)
    requires s in AllStmts(job, Result(job, tables).generated)
    ensures s.conds != []
    ensures forall c :: c in s.conds ==>
              c.col in Columns(job, s.target.table) && c.col in job.keys && Asked(c.col, job.keys[c.col]) == Some(c)
  {
    var t := StmtsAreOfTables(job, Result(job, tables).generated, s);
    StmtIsRestricted(job, t, s);
  }

  // ----- Quiet texts -----

  lemma {:induction false} QuietSplit(a: string, b: string)
    ensures Quiet(a + ("\n" + b)) <==> Quiet(a) && Quiet(b)
    decreases |a|
  {
    var s := a + ("\n" + b);
    if a == "" {
      assert s == "\n" + b && s[1..] == b;
    } else if a[0] == '\n' {
      assert s[1..] == a[1..] + ("\n" + b);
      QuietSplit(a[1..], b);
    } else {
      var n := LineLength(a);
      LineInside(a, "\n" + b);
      assert s[n..] == a[n..] + ("\n" + b);
      assert |a| > 1 ==> s[1] == a[1];
      if |a| > 1 && a[0] == a[1] == '-' {
        QuietSplit(a[n..], b);
      } else {
        assert |a| == 1 ==> s[1] == '\n';
      }
    }
  }

  lemma QuietConcat(a: string, b: string)
    requires a == "" || EndsLine(a)
    ensures Quiet(a + b) <==> Quiet(a) && Quiet(b)
  {
    if a == "" {
      assert a + b == b;
    } else {
      var front := a[..|a| - 1];
      assert a == front + ("\n" + "") && a + b == front + ("\n" + b);
      QuietSplit(front, b);
      QuietSplit(front, "");
    }
  }

  // ----- Blocks lie in gaps -----

  /** What stands in front of the statements of blocks behind `front`. */
  function Gaps(front: string, job: Job, ts: seq<string>): (gaps: seq<string>)
    ensures |gaps| == 2 * |ts|
    decreases |ts|
  {
    if ts == [] then [] else [front + (Head(job, ts[0]) + "\n"), "\n"] + Gaps("\n\n", job, ts[1..])
  }

  ghost predicate AllGenerated(job: Job, ts: seq<string>) {
    forall t :: t in ts ==> TableConds(job, t) != []
  }

  lemma {:induction false} StmtsAreRestricted(job: Job, ts: seq<string>)
    requires AllGenerated(job, ts)
    ensures AllRestricted(AllStmts(job, ts)) && |AllStmts(job, ts)| == 2 * |ts|
  {
    if ts != [] {
      StmtsAreRestricted(job, ts[1..]);
      PairRestricted(TableStmts(job, ts[0])[0], TableStmts(job, ts[0])[1], AllStmts(job, ts[1..]));
    }
  }

  lemma PairRestricted(a: Stmt, b: Stmt, rest: seq<Stmt>)
    ensures AllRestricted([a, b] + rest) <==> a.conds != [] && b.conds != [] && AllRestricted(rest)
  {
    assert ([a, b] + rest)[1..] == [b] + rest && ([b] + rest)[1..] == rest;
  }

  lemma PairSound(a: Stmt, b: Stmt, rest: seq<Stmt>)
    ensures AllSoundStmts([a, b] + rest) <==> SoundStmt(a) && SoundStmt(b) && AllSoundStmts(rest)
  {
    assert ([a, b] + rest)[1..] == [b] + rest && ([b] + rest)[1..] == rest;
  }

  lemma PairTexts(a: Stmt, b: Stmt, rest: seq<Stmt>)
    requires AllRestricted([a, b] + rest) && AllRestricted(rest) && a.conds != [] && b.conds != []
    ensures StmtTexts([a, b] + rest) == [StmtText(a), StmtText(b)] + StmtTexts(rest)
  {
    StmtTextsAhead(b, rest);
    StmtTextsAhead(a, [b] + rest);
    assert [a, b] + rest == [a] + ([b] + rest);
    TwoAhead(StmtText(a), StmtText(b), StmtTexts(rest));
  }

  lemma TwoAhead(a: string, b: string, rest: seq<string>)
    ensures [a] + ([b] + rest) == [a, b] + rest
  {
  }

  lemma WovenPair(a: string, b: string, gaps: seq<string>, x: string, y: string, texts: seq<string>)
    requires |gaps| == |texts|
    ensures Woven([a, b] + gaps, [x, y] + texts, "") == a + (x + (b + (y + Woven(gaps, texts, ""))))
  {
    assert ([a, b] + gaps)[1..] == [b] + gaps && ([b] + gaps)[1..] == gaps;
    assert ([x, y] + texts)[1..] == [y] + texts && ([y] + texts)[1..] == texts;
  }

  lemma BlockText(job: Job, t: string, front: string, rest: string)
    requires TableConds(job, t) != []
    ensures front + (Block(job, t) + rest) ==
            (front + (Head(job, t) + "\n")) +
            (StmtText(TableStmts(job, t)[0]) + ("\n" + (StmtText(TableStmts(job, t)[1]) + rest)))
  {
    var a, b := StmtText(TableStmts(job, t)[0]), StmtText(TableStmts(job, t)[1]);
    var head := t + OmittedNote(Omitted(Columns(job, t), job.keys));
    BlockPieces(front, head, a, b, rest);
  }

  lemma BlockPieces(front: string, head: string, a: string, b: string, rest: string)
    ensures front + (("-- " + (head + ("\n" + (a + ("\n" + b))))) + rest) ==
            (front + (("-- " + head) + "\n")) + (a + ("\n" + (b + rest)))
  {
    var end := a + ("\n" + (b + rest));
    Associative("-- ", head + ("\n" + (a + ("\n" + b))), rest);
    Associative(head, "\n" + (a + ("\n" + b)), rest);
    Associative("\n", a + ("\n" + b), rest);
    Associative(a, "\n" + b, rest);
    Associative("\n", b, rest);
    Associative("-- ", head, "\n" + end);
    Associative("-- " + head, "\n", end);
    Associative(front, ("-- " + head) + "\n", end);
  }

  lemma {:induction false} BlocksAt(job: Job, ts: seq<string>, i: nat)
    requires i < |ts|
    ensures Blocks(job, ts)[i] == Block(job, ts[i])
  {
    if i < |ts| - 1 {
      BlocksAt(job, ts[..|ts| - 1], i);
    }
  }

  lemma BlocksFront(job: Job, ts: seq<string>)
    requires ts != []
    ensures Blocks(job, ts)[0] == Block(job, ts[0]) && Blocks(job, ts)[1..] == Blocks(job, ts[1..])
  {
    BlocksAt(job, ts, 0);
    forall i | 0 <= i < |ts| - 1 ensures Blocks(job, ts)[1..][i] == Blocks(job, ts[1..])[i] {
      BlocksAt(job, ts, i + 1);
      BlocksAt(job, ts[1..], i);
    }
  }

  /** Joined blocks are their statements' texts with those gaps. */
  lemma {:induction false} BlocksAreWoven(front: string, job: Job, ts: seq<string>)
    requires ts != [] && AllGenerated(job, ts) && AllRestricted(AllStmts(job, ts)) && |AllStmts(job, ts)| == 2 * |ts|
    ensures front + Join(Blocks(job, ts), "\n\n") == Woven(Gaps(front, job, ts), StmtTexts(AllStmts(job, ts)), "")
    decreases |ts|
  {
    var t, more, pair := ts[0], ts[1..], TableStmts(job, ts[0]);
    StmtsAreRestricted(job, more);
    PairTexts(pair[0], pair[1], AllStmts(job, more));
    BlocksFront(job, ts);
    WovenPair(front + (Head(job, t) + "\n"), "\n", Gaps("\n\n", job, more),
              StmtText(pair[0]), StmtText(pair[1]), StmtTexts(AllStmts(job, more)));
    if more == [] {
      BlockText(job, t, front, "");
      assert Block(job, t) + "" == Block(job, t);
    } else {
      BlockText(job, t, front, "\n\n" + Join(Blocks(job, more), "\n\n"));
      BlocksAreWoven("\n\n", job, more);
    }
  }

  lemma HeadGap(front: string, head: string)
    requires front == "" || EndsLine(front)
    ensures EndsLine(front + (head + "\n"))
    ensures Gap(front + (head + "\n")) <==> Quiet(front) && Quiet(head)
  {
    QuietConcat(front, head + "\n");
    QuietSplit(head, "");
    assert head + ("\n" + "") == head + "\n";
  }

  lemma GapPair(a: string, b: string, rest: seq<string>)
    ensures AllGaps([a, b] + rest) <==> Gap(a) && Gap(b) && AllGaps(rest)
    ensures AllEndLines([a, b] + rest) <==> EndsLine(a) && EndsLine(b) && AllEndLines(rest)
  {
    assert ([a, b] + rest)[1..] == [b] + rest && ([b] + rest)[1..] == rest;
  }

  lemma BreaksAreQuiet()
    ensures Gap("\n") && Quiet("\n\n")
  {
    assert "\n"[1..] == "" && "\n\n"[1..] == "\n";
  }

  lemma {:induction false} GapsAreQuiet(front: string, job: Job, ts: seq<string>)
    requires front == "" || EndsLine(front)
    ensures AllEndLines(Gaps(front, job, ts))
    ensures AllGaps(Gaps(front, job, ts)) <==>
            (ts != [] ==> Quiet(front) && forall t :: t in ts ==> Quiet(Head(job, t)))
    decreases |ts|
  {
    if ts != [] {
      var t, more := ts[0], ts[1..];
      GapsAreQuiet("\n\n", job, more);
      HeadGap(front, Head(job, t));
      BreaksAreQuiet();
      GapPair(front + (Head(job, t) + "\n"), "\n", Gaps("\n\n", job, more));
      assert ts == [t] + more;
    }
  }

  lemma {:induction false} StmtsAreSound(job: Job, ts: seq<string>)
    requires AllGenerated(job, ts)
    ensures AllSoundStmts(AllStmts(job, ts)) <==>
            (ts != [] ==> SoundLinks(job) && forall t :: t in ts ==> Name(t) && AllSound(TableConds(job, t)))
    decreases |ts|
  {
    if ts != [] {
      StmtsAreSound(job, ts[1..]);
      PairSound(TableStmts(job, ts[0])[0], TableStmts(job, ts[0])[1], AllStmts(job, ts[1..]));
      assert ts == [ts[0]] + ts[1..];
    }
  }

  /** Blocks behind `front` read as the statements of their tables exactly when `front` is quiet and the tables and
      links can be read. */
  lemma BlocksRead(front: string, job: Job, ts: seq<string>)
    requires ts != [] && AllGenerated(job, ts) && (front == "" || EndsLine(front))
    ensures ReadScript(front + Join(Blocks(job, ts), "\n\n")) == Some(AllStmts(job, ts)) <==>
            Quiet(front) && ReadableTables(job, ts)
  {
    StmtsAreRestricted(job, ts);
    BlocksAreWoven(front, job, ts);
    GapsAreQuiet(front, job, ts);
    StmtsAreSound(job, ts);
    WovenReadsExactly(Gaps(front, job, ts), AllStmts(job, ts));
  }

  /** A block reads as its DELETE and its INSERT exactly when its table and the links can be read. */
  lemma BlockReads(job: Job, t: string)
    requires TableConds(job, t) != []
    ensures ReadScript(Block(job, t)) == Some(TableStmts(job, t)) <==> SoundLinks(job) && ReadableTable(job, t)
  {
    BlocksRead("", job, [t]);
    BlocksAt(job, [t], 0);
    assert "" + Block(job, t) == Block(job, t);
    assert AllStmts(job, [t]) == TableStmts(job, t) + AllStmts(job, []) == TableStmts(job, t);
  }

  // ----- The whole script -----

  lemma GeneratedHaveConditions(job: Job, tables: seq<string>)
    ensures AllGenerated(job, Result(job, tables).generated)
  {
    assert forall t :: t in Filter(tables, IsGenerated(job)) ==> IsGenerated(job)(t);
  }

  lemma JoinTwo(a: string, b: string, sep: string)
    ensures Join([a, b], sep) == a + (sep + b)
  {
    assert [a, b][1..] == [b];
  }

  /** A script is its notes and its blocks, with an empty line between them. */
  lemma PartsText(notes: seq<string>, blocks: seq<string>)
    ensures Join(Part(notes, "\n") + Part(blocks, "\n\n"), "\n\n") ==
            if blocks == [] then Join(notes, "\n")
            else if notes == [] then Join(blocks, "\n\n")
            else (Join(notes, "\n") + "\n\n") + Join(blocks, "\n\n")
  {
    var n, b := Join(notes, "\n"), Join(blocks, "\n\n");
    if blocks == [] {
      assert Part(notes, "\n") + [] == Part(notes, "\n");
    } else if notes == [] {
      assert [] + [b] == [b];
    } else {
      JoinTwo(n, b, "\n\n");
      assert [n] + [b] == [n, b];
      Associative(n, "\n\n", b);
    }
  }

  lemma NotesAndBlocksRead(notes: seq<string>, job: Job, ts: seq<string>)
    requires AllGenerated(job, ts)
    ensures ReadScript(Join(Part(notes, "\n") + Part(Blocks(job, ts), "\n\n"), "\n\n")) == Some(AllStmts(job, ts)) <==>
            ReadableTables(job, ts) && Quiet(Join(notes, "\n"))
  {
    var n, b := Join(notes, "\n"), Join(Blocks(job, ts), "\n\n");
    PartsText(notes, Blocks(job, ts));
    if ts == [] {
      NothingReadsExactly(n);
    } else if notes == [] {
      assert "" + b == b;
      BlocksRead("", job, ts);
    } else {
      BlocksRead(n + "\n\n", job, ts);
      BreakAfter(n);
    }
  }

  lemma BreakAfter(n: string)
    ensures Quiet(n + "\n\n") <==> Quiet(n)
  {
    BreaksAreQuiet();
    assert n + "\n\n" == n + ("\n" + "\n");
    QuietSplit(n, "\n");
  }

  /** The whole script reads as the statements of the generated tables, in order and nothing else, exactly when the
      request is readable -- whatever the tables, columns, values and links. */
  lemma ScriptReads(job: Job, tables: seq<string>)
    ensures ReadScript(Result(job, tables).sql) == Some(AllStmts(job, Result(job, tables).generated)) <==>
            Readable(job, tables)
  {
    var r := Result(job, tables);
    GeneratedHaveConditions(job, tables);
    NotesAndBlocksRead(Notes(r.noPk, r.skipped), job, r.generated);
  }

  /** Each suffix group's script reads as the statements of that group's tables, exactly when those can be read. */
  lemma {:induction false} GroupScriptsRead(job: Job, generated: seq<string>, order: seq<string>, g: Group)
    requires AllGenerated(job, generated) && g in GroupsOf(job, generated, order)
    ensures ReadScript(g.sql) == Some(AllStmts(job, g.tables)) <==> ReadableTables(job, g.tables)
  {
    var front, key := order[..|order| - 1], order[|order| - 1];
    if g in GroupsOf(job, generated, front) {
      GroupScriptsRead(job, generated, front, g);
    } else {
      BlocksRead("", job, g.tables);
      assert "" + g.sql == g.sql;
    }
  }

  /** Whatever a readable request's script reads as is restricted, by its own table's PK columns. */
  lemma NoUnconditionalText(job: Job, tables: seq<string>, s: Stmt)
    requires Readable(job, tables)
    ensures ReadScript(Result(job, tables).sql).Some?
    ensures s in ReadScript(Result(job, tables).sql).value ==>
              s.conds != [] && forall c :: c in s.conds ==>
                c.col in Columns(job, s.target.table) && c.col in job.keys && Asked(c.col, job.keys[c.col]) == Some(c)
  {
    ScriptReads(job, tables);
    if s in AllStmts(job, Result(job, tables).generated) {
      NoUnconditionalStatement(job, tables, s);
    }
  }

  // ----- Requests that are readable -----

  lemma {:induction false} OneLineIsQuiet(line: string)
    requires OneLine(line)
    ensures Quiet("-- " + line)
  {
    var s := "-- " + line;
    WholeLine(s);
    assert s[|s|..] == "";
  }

  lemma {:induction false} NameIsOneLine(s: string)
    requires NameLength(s) == |s|
    ensures OneLine(s)
  {
    if s != "" {
      NameIsOneLine(s[1..]);
    }
  }

  lemma {:induction false} JoinIsOneLine(parts: seq<string>, sep: string)
    requires OneLine(sep) && forall p :: p in parts ==> OneLine(p)
    ensures OneLine(Join(parts, sep))
  {
    if parts != [] {
      assert parts[0] in parts;
      JoinIsOneLine(parts[1..], sep);
    }
  }

  lemma {:induction false} OmittedAreColumns(cols: seq<string>, keys: map<string, KeyCond>)
    ensures forall col :: col in Omitted(cols, keys) ==> col in cols
  {
    if cols != [] {
      OmittedAreColumns(cols[1..], keys);
    }
  }

  /** Names for tables and PK columns make a generated table readable. */
  lemma NamesAreReadable(job: Job, t: string)
    requires Name(t) && forall col :: col in Columns(job, t) ==> Name(col)
    ensures ReadableTable(job, t)
  {
    var omitted := Omitted(Columns(job, t), job.keys);
    ConditionsAreSound(Columns(job, t), job.keys);
    NameIsOneLine(t);
    OmittedAreColumns(Columns(job, t), job.keys);
    forall col | col in omitted ensures OneLine(col) {
      NameIsOneLine(col);
    }
    JoinIsOneLine(omitted, ", ");
    OneLineIsQuiet(t + OmittedNote(omitted));
  }

  lemma NoteIsQuiet(what: string, ts: seq<string>)
    requires OneLine(what) && forall t :: t in ts ==> OneLine(t)
    ensures Quiet(NoteLine(what, ts))
  {
    JoinIsOneLine(ts, ", ");
    OneLineIsQuiet(what + Join(ts, ", "));
  }

  lemma NotesAreQuiet(a: seq<string>, b: seq<string>)
    requires |a| <= 1 && |b| <= 1 && (forall s :: s in a + b ==> Quiet(s))
    ensures Quiet(Join(a + b, "\n"))
  {
    if a == [] {
      assert a + b == b;
    } else if b == [] {
      assert a + b == a;
    } else {
      assert a + b == [a[0], b[0]] && [a[0], b[0]][1..] == [b[0]];
      assert a[0] in a + b && b[0] in a + b;
      QuietSplit(a[0], b[0]);
    }
    assert Quiet("");
  }

  lemma OneLineNotesAreQuiet(noPk: seq<string>, skipped: seq<string>)
    requires (forall t :: t in noPk ==> OneLine(t)) && (forall t :: t in skipped ==> OneLine(t))
    ensures Quiet(NotesText(noPk, skipped))
  {
    NoteIsQuiet(NO_PK, noPk);
    NoteIsQuiet(NO_KEYS, skipped);
    NotesAreQuiet(Note(NO_PK, noPk), Note(NO_KEYS, skipped));
  }

  /** One-line table names, names for what is generated and no links or named ones are enough. */
  lemma OrdinaryRequestsAreReadable(job: Job, tables: seq<string>)
    requires SoundLinks(job) && forall t :: t in tables ==> OneLine(t)
    requires forall t :: t in tables && IsGenerated(job)(t) ==>
               Name(t) && forall col :: col in Columns(job, t) ==> Name(col)
    ensures Readable(job, tables)
  {
    var r := Result(job, tables);
    OneLineNotesAreQuiet(r.noPk, r.skipped);
    forall t | t in r.generated ensures ReadableTable(job, t) {
      NamesAreReadable(job, t);
    }
  }
}
