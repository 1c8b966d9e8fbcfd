/** The primary-key dictionary, and the migration request that depends on it. */
module PkDictionary {
  import opened Texts
  import opened KeyConditions
  import opened MigrationScript
  import opened MigrationSql
  import opened MigrationReading

  /** One dictionary row: a table and one column of its primary key. */
  datatype DictRow = DictRow(tableId: string, pkColumn: string)

  function Normal(t: string): string {
    Upper(Strip(t))
  }

  /** The normalised names that are not blank, repeats included. */
  function Normalised(tables: seq<string>): seq<string> {
    if tables == [] then []
    else
      var last := Normal(tables[|tables| - 1]);
      Normalised(tables[..|tables| - 1]) + (if last == "" then [] else [last])
  }

  /** WHERE table_id IN :names. */
  function Asks(names: seq<string>): DictRow -> bool {
    (row: DictRow) => row.tableId in names
  }

  /** The columns of the rows that normalise to `name`, in row order. */
  function ColumnsOf(rows: seq<DictRow>, name: string): seq<string> {
    if rows == [] then []
    else
      var last := rows[|rows| - 1];
      ColumnsOf(rows[..|rows| - 1], name) + (if Normal(last.tableId) == name then [last.pkColumn] else [])
  }

  /** The dictionary's own columns for `name`, in dictionary order. */
  function KeyColumns(rows: seq<DictRow>, name: string): seq<string> {
    if rows == [] then []
    else (if rows[0].tableId == name then [rows[0].pkColumn] else []) + KeyColumns(rows[1..], name)
  }

  /** What a lookup of normalised names gives; no dictionary means the query fails, which no names do not notice. */
  function Fetched(names: seq<string>, dictionary: Option<seq<DictRow>>): Option<map<string, seq<string>>> {
    if names == [] then Some(map[])
    else if dictionary.None? then None
    else Some(map name | name in names :: KeyColumns(dictionary.value, name))
  }

  // ----- Fetching -----

  method FetchPkColumns(tables: seq<string>, dictionary: Option<seq<DictRow>>)
    returns (result: Option<map<string, seq<string>>>)
    ensures result == Fetched(Normalised(tables), dictionary)
  {
    var names := UniqueNames(tables);
    SameElements(names, Normalised(tables));
    if names == [] {
      return Some(map[]);
    }
    if dictionary.None? {
      return None;
    }
    var rows := Filter(dictionary.value, Asks(names));
    var grouped := GroupRows(names, rows);
    NamesAreNormal(tables);
    GroupedIsFetched(names, Normalised(tables), dictionary.value, grouped);
    result := Some(grouped);
  }

  lemma GroupedIsFetched(unique: seq<string>, names: seq<string>, rows: seq<DictRow>, grouped: map<string, seq<string>>)
    requires names != [] && forall name :: name in names ==> Normal(name) == name
    requires forall name :: name in unique <==> name in names
    requires grouped.Keys == Elements(unique)
    requires forall name :: name in unique ==> grouped[name] == ColumnsOf(Filter(rows, Asks(unique)), name)
    ensures Fetched(names, Some(rows)) == Some(grouped)
  {
    forall name | name in names ensures name in grouped && grouped[name] == KeyColumns(rows, name) {
      assert name in Elements(unique);
      ColumnsAreKeyColumns(rows, unique, name);
    }
    var wanted := map name | name in names :: KeyColumns(rows, name);
    forall name ensures name in grouped <==> name in wanted {
      assert name in grouped <==> name in Elements(unique);
    }
    assert grouped == wanted;
  }

  lemma SameElements(a: seq<string>, b: seq<string>)
    requires Elements(a) == Elements(b)
    ensures forall x :: x in a <==> x in b
    ensures a == [] <==> b == []
  {
    assert forall x :: x in a <==> x in Elements(a);
    assert forall x :: x in b <==> x in Elements(b);
    assert a != [] ==> a[0] in b;
    assert b != [] ==> b[0] in a;
  }

  method UniqueNames(tables: seq<string>) returns (names: seq<string>)
    ensures names == Dedupe(Normalised(tables))
    ensures Elements(names) == Elements(Normalised(tables))
  {
    names := [];
    for i := 0 to |tables|
      invariant names == Dedupe(Normalised(tables[..i]))
    {
      NormalisedStep(tables, i);
      var norm := Upper(Strip(tables[i]));
      if norm != "" {
        DedupeSnoc(Normalised(tables[..i]), norm);
        if norm !in names {
          names := names + [norm];
        }
      }
    }
    assert tables[..|tables|] == tables;
  }

  lemma NormalisedStep(tables: seq<string>, i: nat)
    requires i < |tables|
    ensures var before, after := Normalised(tables[..i]), Normalised(tables[..i + 1]);
            after == if Normal(tables[i]) == "" then before else before + [Normal(tables[i])]
  {
    assert tables[..i + 1][..i] == tables[..i];
    assert Normalised(tables[..i]) + [] == Normalised(tables[..i]);
  }

  method GroupRows(names: seq<string>, rows: seq<DictRow>) returns (result: map<string, seq<string>>)
    ensures result.Keys == Elements(names)
    ensures forall name :: name in names ==> result[name] == ColumnsOf(rows, name)
  {
    result := map name | name in names :: [];
    for i := 0 to |rows|
      invariant result.Keys == Elements(names)
      invariant forall name :: name in result ==> result[name] == ColumnsOf(rows[..i], name)
    {
      assert rows[..i + 1][..i] == rows[..i];
      var key := Upper(Strip(rows[i].tableId));
      if key in result {
        result := result[key := result[key] + [rows[i].pkColumn]];
      }
    }
    assert rows[..|rows|] == rows;
  }

  // ----- Normalising -----

  lemma SpaceOfUpper(c: char)
    ensures IsSpace(UpperChar(c)) == IsSpace(c)
    ensures UpperChar(UpperChar(c)) == UpperChar(c)
  {
  }

  /** Normalising a normalised name changes nothing. */
  lemma NormalTwice(t: string)
    ensures Normal(Normal(t)) == Normal(t)
  {
    var s := Strip(t);
    StripLeavesNoSpace(t);
    var u := Upper(s);
    if u != "" {
      SpaceOfUpper(s[0]);
      SpaceOfUpper(s[|s| - 1]);
    }
    assert Strip(u) == u;
    forall i | 0 <= i < |u| ensures UpperChar(u[i]) == u[i] {
      SpaceOfUpper(s[i]);
    }
    assert Upper(u) == u;
  }

  lemma {:induction false} NamesAreNormal(tables: seq<string>)
    ensures forall name :: name in Normalised(tables) ==> Normal(name) == name && name != ""
  {
    if tables != [] {
      NamesAreNormal(tables[..|tables| - 1]);
      NormalTwice(tables[|tables| - 1]);
    }
  }

  lemma ColumnsSnoc(rows: seq<DictRow>, row: DictRow, name: string)
    ensures ColumnsOf(rows + [row], name) ==
            ColumnsOf(rows, name) + (if Normal(row.tableId) == name then [row.pkColumn] else [])
  {
    assert (rows + [row])[..|rows|] == rows;
  }

  lemma {:induction false} KeyColumnsSnoc(rows: seq<DictRow>, row: DictRow, name: string)
    ensures KeyColumns(rows + [row], name) ==
            KeyColumns(rows, name) + (if row.tableId == name then [row.pkColumn] else [])
  {
    if rows == [] {
      assert [] + [row] == [row] && [row][1..] == [];
      assert KeyColumns([row], name) == (if row.tableId == name then [row.pkColumn] else []) + [];
    } else {
      var first := if rows[0].tableId == name then [rows[0].pkColumn] else [];
      assert (rows + [row])[0] == rows[0] && (rows + [row])[1..] == rows[1..] + [row];
      KeyColumnsSnoc(rows[1..], row, name);
      Associative(first, KeyColumns(rows[1..], name), if row.tableId == name then [row.pkColumn] else []);
    }
  }

  /** The rows the query returns go to their own table: normalising them again neither moves nor drops one. */
  lemma {:induction false} ColumnsAreKeyColumns(rows: seq<DictRow>, names: seq<string>, name: string)
    requires name in names && forall n :: n in names ==> Normal(n) == n
    ensures ColumnsOf(Filter(rows, Asks(names)), name) == KeyColumns(rows, name)
  {
    if rows != [] {
      var front, last := rows[..|rows| - 1], rows[|rows| - 1];
      assert rows == front + [last];
      ColumnsAreKeyColumns(front, names, name);
      LastRow(front, last, names, name);
    }
  }

  lemma LastRow(rows: seq<DictRow>, row: DictRow, names: seq<string>, name: string)
    requires name in names && forall n :: n in names ==> Normal(n) == n
    requires ColumnsOf(Filter(rows, Asks(names)), name) == KeyColumns(rows, name)
    ensures ColumnsOf(Filter(rows + [row], Asks(names)), name) == KeyColumns(rows + [row], name)
  {
    FilterSnoc(rows, row, Asks(names));
    KeyColumnsSnoc(rows, row, name);
    ColumnsSnoc(Filter(rows, Asks(names)), row, name);
  }

  // ----- What is fetched -----

  ghost function IsOf(name: string): DictRow -> bool {
    (row: DictRow) => row.tableId == name
  }

  ghost function PkColumn(): DictRow -> string {
    (row: DictRow) => row.pkColumn
  }

  /** The names asked for are the entered ones, trimmed and in upper case, blanks dropped, repeats kept, in order. */
  lemma NormalisedSnoc(front: seq<string>, last: string)
    ensures Normalised([]) == []
    ensures Normalised(front + [last]) ==
            Normalised(front) + (if Upper(Strip(last)) == "" then [] else [Upper(Strip(last))])
  {
    assert (front + [last])[..|front|] == front;
  }

  lemma {:induction false} KeyColumnsExactly(rows: seq<DictRow>, name: string)
    ensures KeyColumns(rows, name) == Mapped(Filter(rows, IsOf(name)), PkColumn())
  {
    if rows != [] {
      KeyColumnsExactly(rows[1..], name);
      var rest := Filter(rows[1..], IsOf(name));
      assert ([rows[0]] + rest)[1..] == rest && [] + rest == rest;
      assert [] + KeyColumns(rows[1..], name) == KeyColumns(rows[1..], name);
    }
  }

  /** Some entered name is `name` in upper case. */
  ghost predicate Requested(tables: seq<string>, name: string) {
    name != "" && exists t :: t in tables && Upper(Strip(t)) == name
  }

  lemma {:induction false} NamesAreRequested(tables: seq<string>, name: string)
    ensures name in Normalised(tables) <==> Requested(tables, name)
  {
    if tables != [] {
      var front, last := tables[..|tables| - 1], tables[|tables| - 1];
      NamesAreRequested(front, name);
      assert tables == front + [last];
      NormalisedSnoc(front, last);
      assert forall t :: t in tables <==> t in front || t == last;
    }
  }

  /** The lookup fails only when a name is asked for and the query fails. Otherwise it has an entry for exactly
      the names asked for: the key columns of the dictionary rows with that very name, in row order. */
  lemma FetchedExactly(tables: seq<string>, dictionary: Option<seq<DictRow>>, name: string)
    ensures var result := Fetched(Normalised(tables), dictionary);
            && (result.None? <==> dictionary.None? && exists n :: Requested(tables, n))
            && (result.Some? ==> (name in result.value <==> Requested(tables, name)))
            && (result.Some? && name in result.value ==>
                  dictionary.Some? && result.value[name] == Mapped(Filter(dictionary.value, IsOf(name)), PkColumn()))
  {
    forall n { NamesAreRequested(tables, n); }
    HasMember(Normalised(tables));
    if dictionary.Some? {
      KeyColumnsExactly(dictionary.value, name);
    }
  }

  // ----- The request -----

  function Migrated(tables: seq<string>, keys: map<string, KeyCond>, fromLink: string, toLink: string,
                    dictionary: Option<seq<DictRow>>): Option<MigrationResult> {
    var names := Normalised(tables);
    match Fetched(names, dictionary)
    case None => None
    case Some(pkMap) => Some(Result(Job(pkMap, keys, fromLink, toLink), names))
  }

  /** Normalise, look the keys up, generate. */
  method MigrateSql(tables: seq<string>, keys: map<string, KeyCond>, fromLink: string, toLink: string,
                    dictionary: Option<seq<DictRow>>) returns (result: Option<MigrationResult>)
    ensures result == Migrated(tables, keys, fromLink, toLink, dictionary)
  {
    var norm: seq<string> := [];
    for i := 0 to |tables|
      invariant norm == Normalised(tables[..i])
    {
      NormalisedStep(tables, i);
      if Strip(tables[i]) != "" {
        norm := norm + [Upper(Strip(tables[i]))];
      }
    }
    assert tables[..|tables|] == tables;
    NormalisedTwice(tables);
    var pkMap := FetchPkColumns(norm, dictionary);
    if pkMap.None? {
      return None;
    }
    var generated := BuildMigrationSql(Job(pkMap.value, keys, fromLink, toLink), norm);
    result := Some(generated);
  }

  lemma {:induction false} NormalisedTwice(tables: seq<string>)
    ensures Normalised(Normalised(tables)) == Normalised(tables)
  {
    if tables != [] {
      var front, last := tables[..|tables| - 1], tables[|tables| - 1];
      NormalisedTwice(front);
      NormalTwice(last);
      var norm := Normalised(front);
      if Normal(last) == "" {
        assert norm + [] == norm;
      } else {
        assert (norm + [Normal(last)])[..|norm|] == norm;
      }
    }
  }

  function Unlisted(rows: seq<DictRow>): string -> bool {
    (t: string) => forall i :: 0 <= i < |rows| ==> rows[i].tableId != t
  }

  lemma {:induction false} NoColumnsMeansUnlisted(rows: seq<DictRow>, t: string)
    ensures KeyColumns(rows, t) == [] <==> Unlisted(rows)(t)
  {
    if rows != [] {
      NoColumnsMeansUnlisted(rows[1..], t);
      assert forall i :: 1 <= i < |rows| ==> rows[i] == rows[1..][i - 1];
    }
  }

  /** Every requested table has the dictionary's key columns. */
  ghost predicate FromDictionary(job: Job, names: seq<string>, rows: seq<DictRow>) {
    Fetched(names, Some(rows)) == Some(job.pkMap)
  }

  lemma ColumnsFromDictionary(job: Job, names: seq<string>, rows: seq<DictRow>, t: string)
    requires FromDictionary(job, names, rows) && t in names
    ensures Columns(job, t) == KeyColumns(rows, t)
  {
  }

  /** no_pk holds exactly the requested tables that the dictionary does not list, in input order. */
  lemma NoPkExactly(job: Job, names: seq<string>, rows: seq<DictRow>)
    requires FromDictionary(job, names, rows)
    ensures Result(job, names).noPk == Filter(names, Unlisted(rows))
  {
    forall t | t in names ensures HasNoPk(job)(t) == Unlisted(rows)(t) {
      ColumnsFromDictionary(job, names, rows, t);
      NoColumnsMeansUnlisted(rows, t);
    }
    FilterAgrees(names, HasNoPk(job), Unlisted(rows));
  }

  /** Every generated statement is restricted, and only by columns of its own table's primary key in the dictionary. */
  lemma NothingIsUnrestricted(job: Job, names: seq<string>, rows: seq<DictRow>, s: Stmt)
    requires FromDictionary(job, names, rows) && s in AllStmts(job, Result(job, names).generated)
    ensures s.conds != [] && s.target.table in names
    ensures forall c :: c in s.conds ==> c.col in KeyColumns(rows, s.target.table)
  {
    var t := StmtsAreOfTables(job, Result(job, names).generated, s);
    StmtIsRestricted(job, t, s);
    ColumnsFromDictionary(job, names, rows, t);
  }

  /** Nor is anything that a readable script says. */
  lemma NothingReadIsUnrestricted(job: Job, names: seq<string>, rows: seq<DictRow>, s: Stmt)
    requires FromDictionary(job, names, rows) && Readable(job, names)
    ensures ReadScript(Result(job, names).sql).Some?
    ensures s in ReadScript(Result(job, names).sql).value ==>
              && s.conds != [] && s.target.table in names
              && forall c :: c in s.conds ==> c.col in KeyColumns(rows, s.target.table)
  {
    ScriptReads(job, names);
    if s in AllStmts(job, Result(job, names).generated) {
      NothingIsUnrestricted(job, names, rows, s);
    }
  }
}
