/** Requests that do not come to what they are meant for: nothing checks links and table names. */
module MigrationExamples {
  import opened Texts
  import opened KeyConditions
  import opened MigrationScript
  import opened MigrationSql
  import opened ScriptLayout
  import opened MigrationReading
  import opened ScriptMeaning

  // ----- A link -----

  const LOOSE_LINK := "L WHERE 1=1; --"

  /** Key K of table T, asked for with the value 1. */
  function OneKey(fromLink: string, toLink: string): Job {
    Job(map["T" := ["K"]], map["K" := KeyCond("eq", "1", "", "")], fromLink, toLink)
  }

  lemma OneKeyConditions(job: Job)
    requires job == OneKey(job.fromLink, job.toLink)
    ensures TableConds(job, "T") == [Equals("K", "1")]
  {
    assert ["K"][1..] == [];
    assert Conditions([], job.keys) == [];
  }

  lemma OneKeyIsGenerated(job: Job)
    requires job == OneKey(job.fromLink, job.toLink)
    ensures TableConds(job, "T") == [Equals("K", "1")] && Result(job, ["T"]).generated == ["T"]
  {
    OneKeyConditions(job);
    assert ["T"][1..] == [];
  }

  function LooseJob(): Job {
    OneKey("", LOOSE_LINK)
  }

  /** A link is pasted into the text as it is: the DELETE meant for one key of T ends behind the link, without its
      condition, and the script does not read as it was meant. */
  lemma LooseLinkExample()
    ensures Result(LooseJob(), ["T"]).generated == ["T"]
    ensures StartsWith(StmtText(TableStmts(LooseJob(), "T")[0]), "DELETE FROM T@L WHERE 1=1; --\n")
    ensures ReadScript(Result(LooseJob(), ["T"]).sql) != Some(AllStmts(LooseJob(), ["T"]))
  {
    LooseLinkIsNoName();
    OneKeyIsGenerated(LooseJob());
    ScriptReads(LooseJob(), ["T"]);
    LooseDelete(TableConds(LooseJob(), "T"));
  }

  lemma LooseLinkIsNoName()
    ensures LinkName(LOOSE_LINK) == LOOSE_LINK && !SoundLink(LOOSE_LINK)
  {
    assert Strip(LOOSE_LINK) == LOOSE_LINK;
    assert LOOSE_LINK[1..][0] == ' ';
    assert NameLength(LOOSE_LINK) == 1 + NameLength(LOOSE_LINK[1..]) == 1;
  }

  lemma LooseDelete(conds: seq<Cond>)
    requires conds != []
    ensures StartsWith(StmtText(Delete(Place("T", LOOSE_LINK), conds)), "DELETE FROM T@L WHERE 1=1; --\n")
  {
    LoosePlace(LOOSE_LINK, WhereText(CondTexts(conds)) + ";");
  }

  lemma LoosePlace(link: string, rest: string)
    requires link == LOOSE_LINK
    ensures StartsWith("DELETE FROM " + (("T" + ("@" + link)) + ("\n" + rest)), "DELETE FROM T@L WHERE 1=1; --\n")
  {
    var head := "DELETE FROM " + (("T" + ("@" + link)) + "\n");
    assert head == "DELETE FROM T@L WHERE 1=1; --\n";
    assert "DELETE FROM " + (("T" + ("@" + link)) + ("\n" + rest)) == head + rest;
    ExpectHit(head, rest);
  }

  // ----- One link on both sides -----

  const ROW: Row := map["K" := "1"]

  /** With both links left empty the row asked for is deleted and there is nothing left to insert. */
  lemma EmptyLinksExample()
    ensures var job, db := OneKey("", ""), map[Place("T", "") := [ROW]];
            && Result(job, ["T"]).generated == ["T"]
            && Intended(job, db, ["T"], Place("T", "")) == [ROW]
            && TableAt(Run(db, AllStmts(job, ["T"])), Place("T", "")) == []
  {
    NoLink();
    UpperT("");
    RowIsLost(OneKey("", ""), map[Place("T", "") := [ROW]], Place("T", ""));
  }

  /** The same with one link in two spellings, in a request whose script can be read. */
  lemma TwoSpellingsExample()
    ensures var job, db := OneKey("dl_a", "DL_A"), map[Place("T", "DL_A") := [ROW]];
            && Readable(job, ["T"]) && Result(job, ["T"]).generated == ["T"]
            && Intended(job, db, ["T"], Place("T", "DL_A")) == [ROW]
            && TableAt(Run(db, AllStmts(job, ["T"])), Place("T", "DL_A")) == []
  {
    LowerSpelling();
    UpperSpelling();
    UpperT("DL_A");
    RowIsLost(OneKey("dl_a", "DL_A"), map[Place("T", "DL_A") := [ROW]], Place("T", "DL_A"));
    OneKeyIsReadable(OneKey("dl_a", "DL_A"));
  }

  lemma OneKeyIsReadable(job: Job)
    requires job == OneKey(job.fromLink, job.toLink) && SoundLinks(job)
    ensures Readable(job, ["T"])
  {
    OneLetter("T");
    OneLetter("K");
    assert Columns(job, "T") == ["K"];
    OrdinaryRequestsAreReadable(job, ["T"]);
  }

  lemma OneLetter(s: string)
    requires |s| == 1 && Letter(s[0])
    ensures Name(s) && OneLine(s)
  {
    assert s[1..] == "";
  }

  lemma LowerSpelling()
    ensures LinkName("dl_a") == "dl_a" && Upper("dl_a") == "DL_A" && Name("dl_a")
  {
    assert Strip("dl_a") == "dl_a";
    assert Upper("dl_a")[0] == 'D' && Upper("dl_a")[1] == 'L' && Upper("dl_a")[2] == '_' && Upper("dl_a")[3] == 'A';
    FourLetters("dl_a");
  }

  lemma UpperSpelling()
    ensures LinkName("DL_A") == "DL_A" && Upper("DL_A") == "DL_A" && Name("DL_A")
  {
    assert Strip("DL_A") == "DL_A";
    FourLetters("DL_A");
  }

  lemma FourLetters(s: string)
    requires |s| == 4 && forall i :: 0 <= i < 4 ==> NameChar(s[i])
    ensures NameLength(s) == 4
  {
    assert s[1..][1..][1..][1..] == "";
    assert NameLength(s[1..][1..]) == 2;
  }

  lemma UpperT(link: string)
    requires Upper(link) == link
    ensures Spelling(Place("T", link)) == Place("T", link)
  {
    assert Upper("T") == "T";
  }

  /** One table behind one link: its slice is deleted and not refilled. */
  lemma OneTableOneLink(job: Job, db: Databases, t: string, p: Place)
    requires SameLink(job) && BehindTo(job, p) && Upper(p.table) == Upper(t)
    ensures var conds, rows := TableConds(job, t), TableAt(db, p);
            && TableAt(Run(db, AllStmts(job, [t])), p) == Outside(conds, rows)
            && Intended(job, db, [t], p) == Outside(conds, rows) + Inside(conds, rows)
  {
    StmtsMeaning(job, db, [t], p);
    OneListed(job, t, p.table, TableAt(db, p));
    assert Spelling(Origin(job, p)) == Spelling(p);
    assert Outside(TableConds(job, t), TableAt(db, p)) + [] == Outside(TableConds(job, t), TableAt(db, p));
  }

  lemma RowIsLost(job: Job, db: Databases, p: Place)
    requires job == OneKey(job.fromLink, job.toLink) && SameLink(job) && p.table == "T" && BehindTo(job, p)
    requires TableAt(db, p) == [ROW]
    ensures Result(job, ["T"]).generated == ["T"]
    ensures Intended(job, db, ["T"], p) == [ROW] && TableAt(Run(db, AllStmts(job, ["T"])), p) == []
  {
    OneKeyIsGenerated(job);
    OneTableOneLink(job, db, "T", p);
    RowIsAskedFor(TableConds(job, "T"));
    assert [] + [ROW] == [ROW];
  }

  lemma NoLink()
    ensures LinkName("") == ""
  {
  }

  lemma RowIsAskedFor(conds: seq<Cond>)
    requires conds == [Equals("K", "1")]
    ensures Inside(conds, [ROW]) == [ROW] && Outside(conds, [ROW]) == []
  {
    assert Upper("K") == "K";
    assert conds[1..] == [] && InSlice(conds, ROW);
    assert [ROW][1..] == [];
    assert Filter([], Selected(conds)) == [] && Filter([], Unselected(conds)) == [];
  }

  // ----- A table name -----

  const NO_INPUT := Job(map[], map[], "", "")

  function LooseStmt(): Stmt {
    Delete(Place("B", ""), [Equals("X", "Y")])
  }

  /** A table that the dictionary does not know is put in a note, and what stands behind a line break in its name reads
      as a statement although nothing is generated. */
  lemma LooseNameExample() returns (t: string)
    ensures t == "A\nDELETE FROM B\n WHERE X = 'Y';"
    ensures Result(NO_INPUT, [t]).generated == [] && ReadScript(Result(NO_INPUT, [t]).sql) == Some([LooseStmt()])
  {
    LooseStmtText();
    t := LooseName(StmtText(LooseStmt()));
    AloneReads(LooseStmt());
    NoteReads(NO_INPUT, NO_PK, LooseStmt(), t, StmtText(LooseStmt()));
  }

  lemma LooseName(text: string) returns (t: string)
    requires text == "DELETE FROM B\n WHERE X = 'Y';"
    ensures t == "A\n" + text == "A\nDELETE FROM B\n WHERE X = 'Y';"
  {
    t := "A\n" + text;
  }

  lemma LooseStmtText()
    ensures SoundStmt(LooseStmt()) && StmtText(LooseStmt()) == "DELETE FROM B\n WHERE X = 'Y';"
  {
    var c := Equals("X", "Y");
    assert [c][1..] == [] && CondTexts([]) == [];
    LooseText(c);
    assert CondTexts([c]) == ["X = 'Y'"] && ["X = 'Y'"][1..] == [];
  }

  lemma LooseText(c: Cond)
    requires c == Equals("X", "Y")
    ensures Text(c) == "X = 'Y'"
  {
    assert Quote("Y") == "Y";
  }

  lemma NoteReads(job: Job, what: string, s: Stmt, t: string, text: string)
    requires Columns(job, t) == [] && what == NO_PK && t == "A\n" + text && ReadScript(text) == Some([s])
    ensures Result(job, [t]).generated == [] && ReadScript(Result(job, [t]).sql) == Some([s])
  {
    UnknownTable(job, t);
    NothingBreaksIn(what);
    LooseNote(what, text);
  }

  lemma NothingBreaksIn(what: string)
    requires what == NO_PK
    ensures OneLine(what)
  {
  }

  lemma UnknownTable(job: Job, t: string)
    requires Columns(job, t) == []
    ensures Result(job, [t]).generated == [] && Result(job, [t]).sql == NoteLine(NO_PK, [t])
  {
    FilterSnoc([], t, IsGenerated(job));
    FilterSnoc([], t, IsSkipped(job));
    FilterSnoc([], t, HasNoPk(job));
    assert [] + [t] == [t];
    PartsText(Notes([t], []), Blocks(job, []));
    assert Notes([t], []) == [NoteLine(NO_PK, [t])];
  }

  lemma AloneReads(s: Stmt)
    requires SoundStmt(s)
    ensures ReadScript(StmtText(s)) == Some([s])
  {
    StmtReads(s, "");
    EndReads(StmtText(s), s);
  }

  lemma EndReads(text: string, s: Stmt)
    requires ReadScript(text + "") == Before([s], ReadScript(""))
    ensures ReadScript(text) == Some([s])
  {
    assert text + "" == text && [s] + [] == [s];
  }

  lemma LooseNote(what: string, text: string)
    requires OneLine(what)
    ensures ReadScript(NoteLine(what, ["A\n" + text])) == ReadScript(text)
  {
    var line := "-- " + (what + "A");
    assert what + ("A\n" + text) == (what + "A") + ("\n" + text);
    Associative("-- ", what + "A", "\n" + text);
    OneLineIsQuiet(what + "A");
    GapIsSkipped(line, "\n" + text);
    BreaksAreQuiet();
    GapIsSkipped("\n", text);
  }
}
