/** The DELETE/INSERT script of a migration: what is generated, and how its text reads. */
module MigrationScript {
  import opened Texts
  import opened KeyConditions

  // ----- Statements and their text -----

  /** A table behind a database link; no link means the local database. */
  datatype Place = Place(table: string, link: string)

  datatype Stmt = Delete(target: Place, conds: seq<Cond>)
                | Insert(target: Place, source: Place, conds: seq<Cond>)

  function WithoutAts(s: string): (r: string)
    ensures r == "" || r[0] != '@'
  {
    if s != "" && s[0] == '@' then WithoutAts(s[1..]) else s
  }

  /** A link as entered, without surrounding white space and leading '@'s. */
  function LinkName(link: string): string {
    WithoutAts(Strip(link))
  }

  /** Of an entered link the white space around it goes, and then the '@'s in front. */
  lemma {:induction false} LinkNameExactly(link: string) returns (left: string, ats: string, right: string)
    ensures link == left + (ats + LinkName(link)) + right
    ensures (forall c :: c in left ==> IsSpace(c)) && (forall c :: c in right ==> IsSpace(c))
    ensures (forall c :: c in ats ==> c == '@') && (LinkName(link) == "" || LinkName(link)[0] != '@')
    ensures var s := ats + LinkName(link); s != "" ==> !IsSpace(s[0]) && !IsSpace(s[|s| - 1])
  {
    left, right := StripExactly(link);
    ats := AtsInFront(Strip(link));
  }

  lemma {:induction false} AtsInFront(s: string) returns (ats: string)
    ensures s == ats + WithoutAts(s) && forall c :: c in ats ==> c == '@'
  {
    ats := "";
    if s != "" && s[0] == '@' {
      ats := AtsInFront(s[1..]);
      ats := "@" + ats;
    }
  }

  function PlaceText(p: Place): string {
    if p.link == "" then p.table else p.table + ("@" + p.link)
  }

  function WhereEnd(conds: seq<Cond>): string
    requires conds != []
  {
    "\n" + (WhereText(CondTexts(conds)) + ";")
  }

  function StmtText(s: Stmt): string
    requires s.conds != []
  {
    match s
    case Delete(target, conds) => "DELETE FROM " + (PlaceText(target) + WhereEnd(conds))
    case Insert(target, source, conds) =>
      "INSERT INTO " + (PlaceText(target) + ("\nSELECT * FROM " + (PlaceText(source) + WhereEnd(conds))))
  }

  // ----- Reading a script -----

  function LineLength(s: string): (n: nat)
    ensures n <= |s|
  {
    if s == "" || s[0] == '\n' then 0 else 1 + LineLength(s[1..])
  }

  function ReadPlace(s: string): Read<Place> {
    match ReadName(s)
    case Unread => Unread
    case Read(table, rest) =>
      if rest == "" || rest[0] != '@' then Read(Place(table, ""), rest)
      else
        match ReadName(rest[1..])
        case Unread => Unread
        case Read(link, end) => Read(Place(table, link), end)
  }

  function ReadWhereEnd(s: string): Read<seq<Cond>> {
    match Expect(s, "\n")
    case None => Unread
    case Some(where) =>
      match ReadWhere(where)
      case Unread => Unread
      case Read(conds, rest) =>
        match Expect(rest, ";")
        case None => Unread
        case Some(end) => Read(conds, end)
  }

  function ReadDelete(s: string): Read<Stmt> {
    match ReadPlace(s)
    case Unread => Unread
    case Read(target, rest) =>
      match ReadWhereEnd(rest)
      case Unread => Unread
      case Read(conds, end) => Read(Delete(target, conds), end)
  }

  function ReadSelect(target: Place, s: string): Read<Stmt> {
    match ReadPlace(s)
    case Unread => Unread
    case Read(source, rest) =>
      match ReadWhereEnd(rest)
      case Unread => Unread
      case Read(conds, end) => Read(Insert(target, source, conds), end)
  }

  function ReadInsert(s: string): Read<Stmt> {
    match ReadPlace(s)
    case Unread => Unread
    case Read(target, rest) =>
      match Expect(rest, "\nSELECT * FROM ")
      case None => Unread
      case Some(more) => ReadSelect(target, more)
  }

  function ReadStmt(s: string): Read<Stmt> {
    if Expect(s, "DELETE FROM ").Some? then ReadDelete(Expect(s, "DELETE FROM ").value)
    else if Expect(s, "INSERT INTO ").Some? then ReadInsert(Expect(s, "INSERT INTO ").value)
    else Unread
  }

  /** What stands at the head of a non-empty script. */
  datatype Front = Skip(rest: string) | Statement(stmt: Stmt, rest: string) | Neither

  function FrontOf(s: string): Front
    requires s != ""
  {
    if s[0] == '\n' then Skip(s[1..])
    else if s[0] == '-' then
      if |s| > 1 && s[1] == '-' then Skip(s[LineLength(s)..]) else Neither
    else
      match ReadStmt(s)
      case Unread => Neither
      case Read(stmt, rest) => Statement(stmt, rest)
  }

  /** A script: statements, comment lines and line breaks. */
  function ReadScript(s: string): Option<seq<Stmt>>
    decreases |s|
  {
    if s == "" then Some([])
    else
      var front := FrontOf(s);
      if front.Neither? || |front.rest| >= |s| then None
      else if front.Skip? then ReadScript(front.rest)
      else Before([front.stmt], ReadScript(front.rest))
  }

  function Before(stmts: seq<Stmt>, more: Option<seq<Stmt>>): Option<seq<Stmt>> {
    if more.None? then None else Some(stmts + more.value)
  }

  // ----- Text reads back -----

  predicate OneLine(s: string) {
    '\n' !in s
  }

  /** A link that is not given, or a name. */
  predicate SoundLink(link: string) {
    link == "" || Name(link)
  }

  predicate SoundPlace(p: Place) {
    Name(p.table) && SoundLink(p.link)
  }

  lemma PlaceReads(p: Place, rest: string)
    requires SoundPlace(p) && rest != "" && rest[0] == '\n'
    ensures ReadPlace(PlaceText(p) + rest) == Read(p, rest)
  {
    if p.link == "" {
      NameReads(p.table, rest);
    } else {
      var link := "@" + (p.link + rest);
      Associative(p.table, "@" + p.link, rest);
      Associative("@", p.link, rest);
      NameReads(p.table, link);
      assert link[1..] == p.link + rest;
      NameReads(p.link, rest);
    }
  }

  lemma WhereEndReads(conds: seq<Cond>, rest: string)
    requires conds != [] && AllSound(conds)
    ensures ReadWhereEnd(WhereEnd(conds) + rest) == Read(conds, rest)
    ensures (WhereEnd(conds) + rest)[0] == '\n'
  {
    var where := WhereText(CondTexts(conds));
    Associative("\n", where + ";", rest);
    Associative(where, ";", rest);
    ExpectHit("\n", where + (";" + rest));
    WhereReads(conds, ";" + rest);
    ExpectHit(";", rest);
  }

  lemma DeleteReads(target: Place, conds: seq<Cond>, rest: string)
    requires SoundPlace(target) && conds != [] && AllSound(conds)
    ensures ReadStmt(StmtText(Delete(target, conds)) + rest) == Read(Delete(target, conds), rest)
  {
    var place, where := PlaceText(target), WhereEnd(conds);
    Associative("DELETE FROM ", place + where, rest);
    Associative(place, where, rest);
    ExpectHit("DELETE FROM ", place + (where + rest));
    WhereEndReads(conds, rest);
    PlaceReads(target, where + rest);
  }

  lemma SelectReads(target: Place, source: Place, conds: seq<Cond>, rest: string)
    requires SoundPlace(source) && conds != [] && AllSound(conds)
    ensures ReadSelect(target, PlaceText(source) + (WhereEnd(conds) + rest)) ==
            Read(Insert(target, source, conds), rest)
  {
    WhereEndReads(conds, rest);
    PlaceReads(source, WhereEnd(conds) + rest);
  }

  lemma InsertReads(target: Place, source: Place, conds: seq<Cond>, rest: string)
    requires SoundPlace(target) && SoundPlace(source) && conds != [] && AllSound(conds)
    ensures ReadStmt(StmtText(Insert(target, source, conds)) + rest) == Read(Insert(target, source, conds), rest)
  {
    var into, from, where := PlaceText(target), PlaceText(source), WhereEnd(conds);
    var select := "\nSELECT * FROM " + (from + where);
    Associative("INSERT INTO ", into + select, rest);
    Associative(into, select, rest);
    Associative("\nSELECT * FROM ", from + where, rest);
    Associative(from, where, rest);
    var tail := "\nSELECT * FROM " + (from + (where + rest));
    ExpectMiss("INSERT INTO " + (into + tail), "DELETE FROM ", 0);
    ExpectHit("INSERT INTO ", into + tail);
    PlaceReads(target, tail);
    ExpectHit("\nSELECT * FROM ", from + (where + rest));
    SelectReads(target, source, conds, rest);
  }

  predicate SoundStmt(s: Stmt) {
    SoundPlace(s.target) && (s.Insert? ==> SoundPlace(s.source)) && s.conds != [] && AllSound(s.conds)
  }

  lemma FrontIsStatement(text: string, s: Stmt, rest: string)
    requires text != "" && (text[0] == 'D' || text[0] == 'I')
    requires ReadStmt(text) == Read(s, rest)
    ensures FrontOf(text) == Statement(s, rest)
  {
  }

  lemma ScriptStep(text: string, s: Stmt, rest: string)
    requires text != "" && FrontOf(text) == Statement(s, rest) && |rest| < |text|
    ensures ReadScript(text) == Before([s], ReadScript(rest))
  {
  }

  /** A script that begins with a statement's text reads as that statement, then the rest. */
  lemma StmtReads(s: Stmt, rest: string)
    requires SoundStmt(s)
    ensures ReadScript(StmtText(s) + rest) == Before([s], ReadScript(rest))
  {
    match s {
      case Delete(target, conds) =>
        DeleteReads(target, conds, rest);
        assert StmtText(s)[0] == 'D';
      case Insert(target, source, conds) =>
        InsertReads(target, source, conds, rest);
        assert StmtText(s)[0] == 'I';
    }
    FrontIsStatement(StmtText(s) + rest, s, rest);
    ScriptStep(StmtText(s) + rest, s, rest);
  }

  // ----- Nothing else reads -----

  lemma OnlyPlacesRead(s: string)
    requires ReadPlace(s).Read?
    ensures SoundPlace(ReadPlace(s).value) && s == PlaceText(ReadPlace(s).value) + ReadPlace(s).rest
  {
    OnlyNamesRead(s);
    var table, rest := ReadName(s).value, ReadName(s).rest;
    if rest != "" && rest[0] == '@' {
      OnlyNamesRead(rest[1..]);
      var link, end := ReadName(rest[1..]).value, ReadName(rest[1..]).rest;
      assert rest == "@" + rest[1..];
      Associative("@", link, end);
      Associative(table, "@" + link, end);
    }
  }

  lemma OnlyWhereEndsRead(s: string)
    requires ReadWhereEnd(s).Read?
    ensures ReadWhereEnd(s).value != [] && AllSound(ReadWhereEnd(s).value)
    ensures s == WhereEnd(ReadWhereEnd(s).value) + ReadWhereEnd(s).rest
  {
    var where := Expect(s, "\n").value;
    ExpectSplits(s, "\n");
    OnlyWheresRead(where);
    ExpectSplits(ReadWhere(where).rest, ";");
    var text, end := WhereText(CondTexts(ReadWhere(where).value)), ReadWhereEnd(s).rest;
    Associative(text, ";", end);
    Associative("\n", text + ";", end);
  }

  lemma OnlyDeletesRead(s: string)
    requires ReadDelete(s).Read?
    ensures SoundStmt(ReadDelete(s).value) && "DELETE FROM " + s == StmtText(ReadDelete(s).value) + ReadDelete(s).rest
  {
    OnlyPlacesRead(s);
    OnlyWhereEndsRead(ReadPlace(s).rest);
    var place, where, end := PlaceText(ReadPlace(s).value), WhereEnd(ReadDelete(s).value.conds), ReadDelete(s).rest;
    Associative(place, where, end);
    Associative("DELETE FROM ", place + where, end);
  }

  lemma OnlySelectsRead(target: Place, s: string)
    requires ReadSelect(target, s).Read?
    ensures var v := ReadSelect(target, s).value;
            && v.Insert? && v.target == target && SoundPlace(v.source) && v.conds != [] && AllSound(v.conds)
            && s == PlaceText(v.source) + (WhereEnd(v.conds) + ReadSelect(target, s).rest)
  {
    OnlyPlacesRead(s);
    OnlyWhereEndsRead(ReadPlace(s).rest);
  }

  lemma OnlyInsertsRead(s: string)
    requires ReadInsert(s).Read?
    ensures SoundStmt(ReadInsert(s).value) && "INSERT INTO " + s == StmtText(ReadInsert(s).value) + ReadInsert(s).rest
  {
    var v, end := ReadInsert(s).value, ReadInsert(s).rest;
    OnlyPlacesRead(s);
    ExpectSplits(ReadPlace(s).rest, "\nSELECT * FROM ");
    OnlySelectsRead(v.target, Expect(ReadPlace(s).rest, "\nSELECT * FROM ").value);
    InsertText(v, end);
  }

  lemma InsertText(v: Stmt, end: string)
    requires v.Insert? && v.conds != []
    ensures StmtText(v) + end == "INSERT INTO " + (PlaceText(v.target) + ("\nSELECT * FROM " +
              (PlaceText(v.source) + (WhereEnd(v.conds) + end))))
  {
    var into, from, where := PlaceText(v.target), PlaceText(v.source), WhereEnd(v.conds);
    Associative("INSERT INTO ", into + ("\nSELECT * FROM " + (from + where)), end);
    Associative(into, "\nSELECT * FROM " + (from + where), end);
    Associative("\nSELECT * FROM ", from + where, end);
    Associative(from, where, end);
  }

  /** Only the text of a statement on names, restricted by a condition, reads as a statement. */
  lemma OnlyStmtsRead(s: string)
    requires ReadStmt(s).Read?
    ensures SoundStmt(ReadStmt(s).value) && s == StmtText(ReadStmt(s).value) + ReadStmt(s).rest
  {
    if Expect(s, "DELETE FROM ").Some? {
      ExpectSplits(s, "DELETE FROM ");
      OnlyDeletesRead(Expect(s, "DELETE FROM ").value);
    } else {
      ExpectSplits(s, "INSERT INTO ");
      OnlyInsertsRead(Expect(s, "INSERT INTO ").value);
    }
  }
}
