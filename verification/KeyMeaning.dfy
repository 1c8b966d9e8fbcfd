/** What the entered keys ask for, and that the generated conditions select exactly that. */
module KeyMeaning {
  import opened Texts
  import opened KeyConditions
  import opened MigrationScript
  import opened MigrationSql
  import opened ScriptMeaning

  // ----- Between commas -----

  /** `s[i..j]` is a stretch between two commas, or between a comma and an end. */
  ghost predicate Stretch(s: string, sep: char, i: int, j: int) {
    && 0 <= i <= j <= |s| && sep !in s[i..j]
    && (i == 0 || s[i - 1] == sep) && (j == |s| || s[j] == sep)
  }

  lemma StretchBehind(s: string, sep: char, i: nat, j: nat)
    requires s != "" && Stretch(s[1..], sep, i, j) && (i > 0 || s[0] == sep)
    ensures Stretch(s, sep, i + 1, j + 1) && s[i + 1..j + 1] == s[1..][i..j]
  {
    var t := s[1..];
    assert forall k :: 0 <= k < j - i ==> t[i..j][k] == t[i + k] == s[i + 1 + k] == s[i + 1..j + 1][k];
    assert t[i..j] == s[i + 1..j + 1];
  }

  lemma {:induction false} PartIsStretch(s: string, sep: char, k: nat) returns (i: nat, j: nat)
    requires k < |Split(s, sep)|
    ensures Stretch(s, sep, i, j) && s[i..j] == Split(s, sep)[k] && (k == 0 <==> i == 0)
  {
    if s == "" {
      i, j := 0, 0;
    } else if s[0] == sep && k == 0 {
      i, j := 0, 0;
    } else if s[0] == sep {
      i, j := PartIsStretch(s[1..], sep, k - 1);
      StretchBehind(s, sep, i, j);
      i, j := i + 1, j + 1;
    } else if k == 0 {
      i, j := PartIsStretch(s[1..], sep, 0);
      assert s[0..j + 1] == [s[0]] + s[1..][i..j];
      j := j + 1;
    } else {
      i, j := PartIsStretch(s[1..], sep, k);
      StretchBehind(s, sep, i, j);
      i, j := i + 1, j + 1;
    }
  }

  lemma {:induction false} StretchIsPart(s: string, sep: char, i: nat, j: nat) returns (k: nat)
    requires Stretch(s, sep, i, j)
    ensures k < |Split(s, sep)| && Split(s, sep)[k] == s[i..j] && (i > 0 ==> k > 0)
  {
    if i == 0 {
      k := 0;
      SplitAfterPart(s[..j], sep, if j == |s| then "" else s[j + 1..]);
      assert s[0..j] == s[..j];
      assert s == if j == |s| then s[..j] else s[..j] + [sep] + s[j + 1..];
    } else {
      assert s[1..][i - 1..j - 1] == s[i..j];
      k := StretchIsPart(s[1..], sep, i - 1, j - 1);
      if s[0] == sep {
        k := k + 1;
      }
    }
  }

  /** `p` is what stands between two commas, trimmed, and is not blank. */
  ghost predicate PieceOf(s: string, p: string) {
    p != "" && exists i, j :: Stretch(s, ',', i, j) && Strip(s[i..j]) == p
  }

  lemma {:induction false} PiecesAreTrimmed(parts: seq<string>, p: string)
    ensures p in Pieces(parts) <==> p != "" && exists k :: 0 <= k < |parts| && Strip(parts[k]) == p
  {
    if parts != [] {
      PiecesAreTrimmed(parts[1..], p);
      if p != "" && Strip(parts[0]) != p {
        if k :| 0 <= k < |parts| && Strip(parts[k]) == p {
          assert parts[1..][k - 1] == parts[k];
        }
        if k :| 0 <= k < |parts[1..]| && Strip(parts[1..][k]) == p {
          assert parts[k + 1] == parts[1..][k];
        }
      }
    }
  }

  lemma PiecesExactly(s: string, p: string)
    ensures p in Pieces(Split(s, ',')) <==> PieceOf(s, p)
  {
    var parts := Split(s, ',');
    PiecesAreTrimmed(parts, p);
    if p != "" {
      if k :| 0 <= k < |parts| && Strip(parts[k]) == p {
        var i, j := PartIsStretch(s, ',', k);
      }
      if i, j :| Stretch(s, ',', i, j) && Strip(s[i..j]) == p {
        var k := StretchIsPart(s, ',', i, j);
      }
    }
  }

  // ----- What one column's input asks for -----

  /** Something was entered. */
  ghost predicate Entered(kc: KeyCond) {
    if kc.op == "between" then kc.start != "" && kc.end != ""
    else if ',' in kc.value then exists p :: PieceOf(kc.value, p)
    else kc.value != ""
  }

  /** The input asks for this value: between start and end, one of the pieces between commas, or the value itself. */
  ghost predicate AsksFor(kc: KeyCond, v: string) {
    && Entered(kc)
    && if kc.op == "between" then LexLe(kc.start, v) && LexLe(v, kc.end)
       else if ',' in kc.value then PieceOf(kc.value, v)
       else v == kc.value
  }

  lemma WantedValues(kc: KeyCond) returns (wanted: seq<string>)
    requires kc.op != "between"
    ensures wanted == if ',' in kc.value then Pieces(Split(kc.value, ','))
                      else if kc.value == "" then [] else [kc.value]
    ensures wanted != [] <==> Entered(kc)
    ensures forall v :: v in wanted <==> AsksFor(kc, v)
  {
    wanted := if ',' in kc.value then Pieces(Split(kc.value, ',')) else if kc.value == "" then [] else [kc.value];
    HasMember(wanted);
    if ',' in kc.value {
      forall v ensures v in wanted <==> PieceOf(kc.value, v) {
        PiecesExactly(kc.value, v);
      }
    }
  }

  /** There is a condition exactly when something was entered, and it selects exactly the rows with a value asked
      for. */
  lemma ConditionMeans(col: string, kc: KeyCond, row: Row)
    ensures Asked(col, kc).Some? <==> Entered(kc)
    ensures Asked(col, kc).Some? ==> Asked(col, kc).value.col == col
    ensures Asked(col, kc).Some? ==>
              (Matches(Asked(col, kc).value, row) <==> Upper(col) in row && AsksFor(kc, row[Upper(col)]))
  {
    if kc.op != "between" {
      var wanted := WantedValues(kc);
      assert |wanted| == 1 ==> forall v :: v in wanted <==> v == wanted[0];
    }
  }

  function Values(c: Cond): seq<string> {
    match c
    case Equals(_, v) => [v]
    case OneOf(_, vs) => vs
    case Between(_, low, high) => [low, high]
  }

  /** The pieces of consecutive parts follow each other, repeats included: a part gives itself trimmed, a blank none. */
  lemma {:induction false} PiecesInOrder(a: seq<string>, part: string, b: seq<string>)
    ensures Pieces([]) == [] && Pieces([part]) == if Strip(part) == "" then [] else [Strip(part)]
    ensures Pieces(a + b) == Pieces(a) + Pieces(b)
  {
    assert [part][1..] == [];
    if a == [] {
      assert a + b == b;
    } else {
      assert (a + b)[0] == a[0] && (a + b)[1..] == a[1..] + b;
      PiecesInOrder(a[1..], part, b);
      Associative(if Strip(a[0]) == "" then [] else [Strip(a[0])], Pieces(a[1..]), Pieces(b));
    }
  }

  /** The condition lists the values entered, in the order entered: one is tested for equality, several with IN. */
  lemma ConditionLists(col: string, kc: KeyCond)
    requires Asked(col, kc).Some?
    ensures var c := Asked(col, kc).value;
            && (c.Between? <==> kc.op == "between") && (c.OneOf? ==> |c.values| > 1)
            && Values(c) == if kc.op == "between" then [kc.start, kc.end]
                            else if ',' in kc.value then Pieces(Split(kc.value, ',')) else [kc.value]
  {
    if kc.op != "between" {
      var wanted := WantedValues(kc);
      assert |wanted| == 1 ==> wanted == [wanted[0]];
    }
  }

  // ----- What a table's keys ask for -----

  /** Column `col` restricts the slice. */
  ghost predicate Restricts(job: Job, col: string) {
    col in job.keys && Entered(job.keys[col])
  }

  /** The row is in the slice asked for: in every PK column with input it has a value asked for. */
  ghost predicate Wanted(job: Job, t: string, row: Row) {
    t in job.pkMap &&
    forall col :: col in job.pkMap[t] && Restricts(job, col) ==>
      Upper(col) in row && AsksFor(job.keys[col], row[Upper(col)])
  }

  ghost predicate ColumnsMatch(job: Job, cols: seq<string>, row: Row) {
    forall col :: col in cols && Restricts(job, col) ==> Upper(col) in row && AsksFor(job.keys[col], row[Upper(col)])
  }

  lemma ColumnsMatchAhead(job: Job, col: string, rest: seq<string>, row: Row)
    ensures ColumnsMatch(job, [col] + rest, row) <==>
            (Restricts(job, col) ==> Upper(col) in row && AsksFor(job.keys[col], row[Upper(col)])) &&
            ColumnsMatch(job, rest, row)
  {
    assert col in [col] + rest && forall c :: c in [col] + rest <==> c == col || c in rest;
  }

  lemma {:induction false} ConditionsMean(job: Job, cols: seq<string>, row: Row)
    ensures InSlice(Conditions(cols, job.keys), row) <==> ColumnsMatch(job, cols, row)
  {
    if cols != [] {
      var col, rest := cols[0], cols[1..];
      assert cols == [col] + rest;
      ConditionsMean(job, rest, row);
      ColumnsMatchAhead(job, col, rest, row);
      if col in job.keys {
        ConditionMeans(col, job.keys[col], row);
        if Entered(job.keys[col]) {
          var c := Asked(col, job.keys[col]).value;
          assert ([c] + Conditions(rest, job.keys))[1..] == Conditions(rest, job.keys);
        }
      }
      assert [] + Conditions(rest, job.keys) == Conditions(rest, job.keys);
    }
  }

  /** A row is in the slice a table's conditions select exactly when the keys ask for it. */
  lemma SliceExactly(job: Job, t: string, row: Row)
    requires t in job.pkMap
    ensures InSlice(TableConds(job, t), row) <==> Wanted(job, t, row)
  {
    ConditionsMean(job, job.pkMap[t], row);
  }

  ghost function HasInput(job: Job): string -> bool {
    (col: string) => Restricts(job, col)
  }

  ghost function NoInput(job: Job): string -> bool {
    (col: string) => !Restricts(job, col)
  }

  function CondColumns(conds: seq<Cond>): seq<string> {
    if conds == [] then [] else [conds[0].col] + CondColumns(conds[1..])
  }

  /** Conditions stand on the columns with input, in column order; the columns set aside are the others. */
  lemma {:induction false} ConditionsInColumnOrder(job: Job, cols: seq<string>)
    ensures CondColumns(Conditions(cols, job.keys)) == Filter(cols, HasInput(job))
    ensures Omitted(cols, job.keys) == Filter(cols, NoInput(job))
  {
    if cols != [] {
      var col, rest := cols[0], Conditions(cols[1..], job.keys);
      ConditionsInColumnOrder(job, cols[1..]);
      if col in job.keys {
        ConditionMeans(col, job.keys[col], map[]);
        if Entered(job.keys[col]) {
          var c := Asked(col, job.keys[col]).value;
          assert ([c] + rest)[1..] == rest && ([c] + rest)[0] == c;
        }
      }
      assert [] + rest == rest;
    }
  }

  // ----- Which tables are generated -----

  ghost function Generated(job: Job): string -> bool {
    (t: string) => t in job.pkMap && exists col :: col in job.pkMap[t] && Restricts(job, col)
  }

  ghost function WithoutInput(job: Job): string -> bool {
    (t: string) => t in job.pkMap && job.pkMap[t] != [] && forall col :: col in job.pkMap[t] ==> !Restricts(job, col)
  }

  ghost function WithoutKey(job: Job): string -> bool {
    (t: string) => t !in job.pkMap || job.pkMap[t] == []
  }

  lemma ClassExactly(job: Job, t: string)
    ensures IsGenerated(job)(t) == Generated(job)(t)
    ensures IsSkipped(job)(t) == WithoutInput(job)(t)
    ensures HasNoPk(job)(t) == WithoutKey(job)(t)
  {
    if t in job.pkMap {
      var cols := job.pkMap[t];
      ConditionsInColumnOrder(job, cols);
      var kept := Filter(cols, HasInput(job));
      HasMember(kept);
      assert TableConds(job, t) == [] <==> kept == [];
      assert forall col :: col in kept <==> col in cols && HasInput(job)(col);
    }
  }

  /** A table is generated when some PK column of it has input, skipped when it has PK columns and none has input, and
      listed without a key when it has none; each list in input order. */
  lemma ClassesExactly(job: Job, tables: seq<string>)
    ensures var r := Result(job, tables);
            && r.generated == Filter(tables, Generated(job))
            && r.skipped == Filter(tables, WithoutInput(job))
            && r.noPk == Filter(tables, WithoutKey(job))
  {
    forall t { ClassExactly(job, t); }
    FilterAgrees(tables, IsGenerated(job), Generated(job));
    FilterAgrees(tables, IsSkipped(job), WithoutInput(job));
    FilterAgrees(tables, HasNoPk(job), WithoutKey(job));
  }
}
