/** Key conditions of a migration: from what the user entered to WHERE text, and how that text reads. */
module KeyConditions {
  import opened Texts

  /** One column's input: `op` "between" uses `start` and `end`, anything else uses `value`. */
  datatype KeyCond = KeyCond(op: string, value: string, start: string, end: string)

  /** What a condition means. */
  datatype Cond = Equals(col: string, value: string)
                | OneOf(col: string, values: seq<string>)
                | Between(col: string, low: string, high: string)

  /** Quotes doubled, the character string literal rule of section 5.3 of ISO/IEC 9075-2. */
  function Quote(v: string): string {
    if v == "" then "" else (if v[0] == '\'' then "''" else [v[0]]) + Quote(v[1..])
  }

  function Literal(v: string): string {
    "'" + Quote(v) + "'"
  }

  /** The trimmed, non-empty pieces between commas. */
  function Pieces(parts: seq<string>): (r: seq<string>)
    ensures "" !in r
  {
    if parts == [] then []
    else (if Strip(parts[0]) == "" then [] else [Strip(parts[0])]) + Pieces(parts[1..])
  }

  function Literals(values: seq<string>): seq<string> {
    if values == [] then [] else [Literal(values[0])] + Literals(values[1..])
  }

  /** The condition text for one column, or none when nothing was entered. */
  function Condition(col: string, kc: KeyCond): Option<string> {
    if kc.op == "between" then
      if kc.start == "" || kc.end == "" then None
      else Some(col + (" BETWEEN " + (Literal(kc.start) + (" AND " + Literal(kc.end)))))
    else if kc.value == "" then None
    else if ',' in kc.value then
      var values := Pieces(Split(kc.value, ','));
      if values == [] then None
      else if |values| == 1 then Some(col + (" = " + Literal(values[0])))
      else Some(col + (" IN (" + (Join(Literals(values), ", ") + ")")))
    else Some(col + (" = " + Literal(kc.value)))
  }

  /** The condition the user asked for, or none. */
  function Asked(col: string, kc: KeyCond): Option<Cond> {
    if kc.op == "between" then
      if kc.start == "" || kc.end == "" then None else Some(Between(col, kc.start, kc.end))
    else
      var wanted := if ',' in kc.value then Pieces(Split(kc.value, ',')) else if kc.value == "" then [] else [kc.value];
      match |wanted|
      case 0 => None
      case 1 => Some(Equals(col, wanted[0]))
      case _ => Some(OneOf(col, wanted))
  }

  // ----- Reading the text -----

  function NameLength(s: string): (n: nat)
    ensures n <= |s|
  {
    if s == "" || !NameChar(s[0]) then 0 else 1 + NameLength(s[1..])
  }

  /** A letter comes first, and behind every '.'. */
  predicate Parted(s: string) {
    s != "" && Letter(s[0]) && forall i :: 0 <= i < |s| && s[i] == '.' ==> i + 1 < |s| && Letter(s[i + 1])
  }

  /** A name: name characters only, each part beginning with a letter. */
  predicate Name(s: string) {
    NameLength(s) == |s| && Parted(s)
  }

  datatype Read<+T> = Read(value: T, rest: string) | Unread

  function ReadName(s: string): Read<string> {
    if Parted(s[..NameLength(s)]) then Read(s[..NameLength(s)], s[NameLength(s)..]) else Unread
  }

  /** The inside of a literal, up to the first quote that is not doubled. */
  function ReadBody(s: string): Read<string>
    decreases |s|
  {
    if s == "" then Unread
    else if s[0] != '\'' then
      match ReadBody(s[1..]) case Unread => Unread case Read(v, rest) => Read([s[0]] + v, rest)
    else if |s| > 1 && s[1] == '\'' then
      match ReadBody(s[2..]) case Unread => Unread case Read(v, rest) => Read("'" + v, rest)
    else Read("", s[1..])
  }

  function ReadLiteral(s: string): Read<string> {
    match Expect(s, "'")
    case None => Unread
    case Some(rest) => ReadBody(rest)
  }

  /** The inside of an IN list. */
  function ReadList(s: string): Read<seq<string>>
    decreases |s|
  {
    match ReadLiteral(s)
    case Unread => Unread
    case Read(v, rest) =>
      if Expect(rest, ", ").Some? && |Expect(rest, ", ").value| < |s| then
        match ReadList(Expect(rest, ", ").value)
        case Unread => Unread
        case Read(vs, end) => Read([v] + vs, end)
      else if Expect(rest, ")").Some? then Read([v], Expect(rest, ")").value)
      else Unread
  }

  function ReadBetween(col: string, s: string): Read<Cond> {
    match ReadLiteral(s)
    case Unread => Unread
    case Read(low, rest) =>
      match Expect(rest, " AND ")
      case None => Unread
      case Some(more) =>
        match ReadLiteral(more)
        case Unread => Unread
        case Read(high, end) => Read(Between(col, low, high), end)
  }

  function ReadTest(col: string, s: string): Read<Cond> {
    if Expect(s, " = ").Some? then
      match ReadLiteral(Expect(s, " = ").value)
      case Unread => Unread
      case Read(v, rest) => Read(Equals(col, v), rest)
    else if Expect(s, " IN (").Some? then
      match ReadList(Expect(s, " IN (").value)
      case Unread => Unread
      case Read(vs, rest) => Read(OneOf(col, vs), rest)
    else if Expect(s, " BETWEEN ").Some? then ReadBetween(col, Expect(s, " BETWEEN ").value)
    else Unread
  }

  function ReadCond(s: string): Read<Cond> {
    match ReadName(s)
    case Unread => Unread
    case Read(col, rest) => ReadTest(col, rest)
  }

  lemma {:induction false} NameReads(name: string, rest: string)
    requires Name(name) && (rest == "" || !NameChar(rest[0]))
    ensures ReadName(name + rest) == Read(name, rest)
  {
    NameEnds(name, rest);
    assert (name + rest)[..|name|] == name && (name + rest)[|name|..] == rest;
  }

  lemma {:induction false} NameEnds(name: string, rest: string)
    requires NameLength(name) == |name|
    requires rest == "" || !NameChar(rest[0])
    ensures NameLength(name + rest) == |name|
  {
    if name == "" {
      assert name + rest == rest;
    } else {
      assert (name + rest)[1..] == name[1..] + rest;
      NameEnds(name[1..], rest);
    }
  }

  /** A quoted body reads back to its value and ends where it should, whatever the value holds. */
  lemma {:induction false} BodyReads(v: string, rest: string)
    requires rest == "" || rest[0] != '\''
    ensures ReadBody(Quote(v) + "'" + rest) == Read(v, rest)
  {
    var s := Quote(v) + "'" + rest;
    if v == "" {
      assert s == "'" + rest && s[1..] == rest;
    } else {
      BodyReads(v[1..], rest);
      var tail := Quote(v[1..]) + "'" + rest;
      if v[0] == '\'' {
        assert s == "''" + tail && s[2..] == tail;
      } else {
        assert s == [v[0]] + tail && s[1..] == tail;
      }
      assert [v[0]] + v[1..] == v;
    }
  }

  lemma LiteralReads(v: string, rest: string)
    requires rest == "" || rest[0] != '\''
    ensures ReadLiteral(Literal(v) + rest) == Read(v, rest)
  {
    var s := Quote(v) + "'" + rest;
    assert Literal(v) + rest == "'" + s;
    ExpectHit("'", s);
    BodyReads(v, rest);
  }

  lemma {:induction false} ListReads(values: seq<string>, rest: string)
    requires values != []
    ensures ReadList(Join(Literals(values), ", ") + (")" + rest)) == Read(values, rest)
  {
    var v, tail := values[0], ")" + rest;
    if |values| == 1 {
      LiteralReads(v, tail);
      ExpectMiss(tail, ", ", 0);
      ExpectHit(")", rest);
      assert values == [v];
    } else {
      var list := Join(Literals(values[1..]), ", ");
      Associative(Literal(v), ", " + list, tail);
      Associative(", ", list, tail);
      LiteralReads(v, ", " + (list + tail));
      ExpectHit(", ", list + tail);
      ListReads(values[1..], rest);
      assert values == [v] + values[1..];
    }
  }

  /** What stands behind the column name. */
  function Test(c: Cond): (t: string)
    ensures t != "" && t[0] == ' '
  {
    match c
    case Equals(_, v) => " = " + Literal(v)
    case OneOf(_, vs) => " IN (" + (Join(Literals(vs), ", ") + ")")
    case Between(_, low, high) => " BETWEEN " + (Literal(low) + (" AND " + Literal(high)))
  }

  function Text(c: Cond): string {
    c.col + Test(c)
  }

  /** The generator writes exactly the text of what was asked. */
  lemma ConditionIsText(col: string, kc: KeyCond)
    ensures Condition(col, kc) == if Asked(col, kc).None? then None else Some(Text(Asked(col, kc).value))
  {
  }

  lemma EqualsReads(col: string, v: string, rest: string)
    requires rest == "" || rest[0] != '\''
    ensures ReadTest(col, Test(Equals(col, v)) + rest) == Read(Equals(col, v), rest)
  {
    Associative(" = ", Literal(v), rest);
    ExpectHit(" = ", Literal(v) + rest);
    LiteralReads(v, rest);
  }

  lemma OneOfReads(col: string, vs: seq<string>, rest: string)
    requires vs != []
    ensures ReadTest(col, Test(OneOf(col, vs)) + rest) == Read(OneOf(col, vs), rest)
  {
    var list := Join(Literals(vs), ", ");
    Associative(" IN (", list + ")", rest);
    Associative(list, ")", rest);
    ExpectMiss(" IN (" + (list + (")" + rest)), " = ", 1);
    ExpectHit(" IN (", list + (")" + rest));
    ListReads(vs, rest);
  }

  lemma BetweenReads(col: string, low: string, high: string, rest: string)
    requires rest == "" || rest[0] != '\''
    ensures ReadTest(col, Test(Between(col, low, high)) + rest) == Read(Between(col, low, high), rest)
  {
    var l, h := Literal(low), Literal(high);
    Associative(" BETWEEN ", l + (" AND " + h), rest);
    Associative(l, " AND " + h, rest);
    Associative(" AND ", h, rest);
    var body := l + (" AND " + (h + rest));
    ExpectMiss(" BETWEEN " + body, " = ", 1);
    ExpectMiss(" BETWEEN " + body, " IN (", 1);
    ExpectHit(" BETWEEN ", body);
    BetweenBodyReads(col, low, high, rest);
  }

  lemma BetweenBodyReads(col: string, low: string, high: string, rest: string)
    requires rest == "" || rest[0] != '\''
    ensures ReadBetween(col, Literal(low) + (" AND " + (Literal(high) + rest))) == Read(Between(col, low, high), rest)
  {
    var more := Literal(high) + rest;
    LiteralReads(low, " AND " + more);
    ExpectHit(" AND ", more);
    LiteralReads(high, rest);
  }

  /** Conditions as the generator makes them: on a name, lists not empty. */
  predicate Sound(c: Cond) {
    Name(c.col) && (c.OneOf? ==> c.values != [])
  }

  predicate AllSound(conds: seq<Cond>) {
    conds == [] || (Sound(conds[0]) && AllSound(conds[1..]))
  }

  /** A condition reads back as itself, whatever its values hold. */
  lemma CondReads(c: Cond, rest: string)
    requires Sound(c) && (rest == "" || rest[0] != '\'')
    ensures ReadCond(Text(c) + rest) == Read(c, rest)
  {
    match c {
      case Equals(col, v) => EqualsReads(col, v, rest);
      case OneOf(col, vs) => OneOfReads(col, vs, rest);
      case Between(col, low, high) => BetweenReads(col, low, high, rest);
    }
    Associative(c.col, Test(c), rest);
    NameReads(c.col, Test(c) + rest);
  }

  // ----- Nothing else reads -----

  lemma {:induction false} NamePrefix(s: string, k: nat)
    requires k <= NameLength(s)
    ensures NameLength(s[..k]) == k
  {
    if k > 0 {
      assert s[..k][1..] == s[1..][..k - 1];
      NamePrefix(s[1..], k - 1);
    }
  }

  lemma OnlyNamesRead(s: string)
    requires ReadName(s).Read?
    ensures Name(ReadName(s).value) && s == ReadName(s).value + ReadName(s).rest
  {
    NamePrefix(s, NameLength(s));
  }

  lemma {:induction false} OnlyBodiesRead(s: string)
    requires ReadBody(s).Read?
    ensures s == Quote(ReadBody(s).value) + ("'" + ReadBody(s).rest)
    decreases |s|
  {
    var v, rest := ReadBody(s).value, ReadBody(s).rest;
    if s[0] != '\'' {
      OnlyBodiesRead(s[1..]);
      BodyAhead(s[0], ReadBody(s[1..]).value, rest);
      assert s == [s[0]] + s[1..];
    } else if |s| > 1 && s[1] == '\'' {
      OnlyBodiesRead(s[2..]);
      BodyAhead('\'', ReadBody(s[2..]).value, rest);
      assert s == "''" + s[2..];
    } else {
      assert s == "'" + s[1..];
    }
  }

  lemma BodyAhead(c: char, v: string, rest: string)
    ensures Quote([c] + v) + ("'" + rest) == (if c == '\'' then "''" else [c]) + (Quote(v) + ("'" + rest))
  {
    assert ([c] + v)[1..] == v;
    Associative(if c == '\'' then "''" else [c], Quote(v), "'" + rest);
  }

  lemma OnlyLiteralsRead(s: string)
    requires ReadLiteral(s).Read?
    ensures s == Literal(ReadLiteral(s).value) + ReadLiteral(s).rest
  {
    var v, rest := ReadLiteral(s).value, ReadLiteral(s).rest;
    var body := Expect(s, "'").value;
    ExpectSplits(s, "'");
    OnlyBodiesRead(body);
    Associative("'", Quote(v) + "'", rest);
    Associative(Quote(v), "'", rest);
    Associative("'", Quote(v), "'");
  }

  lemma {:induction false} OnlyListsRead(s: string)
    requires ReadList(s).Read?
    ensures ReadList(s).value != []
    ensures s == Join(Literals(ReadList(s).value), ", ") + (")" + ReadList(s).rest)
    decreases |s|
  {
    var v, more := ReadLiteral(s).value, ReadLiteral(s).rest;
    OnlyLiteralsRead(s);
    if Expect(more, ", ").Some? && |Expect(more, ", ").value| < |s| {
      var next := Expect(more, ", ").value;
      ExpectSplits(more, ", ");
      OnlyListsRead(next);
      ListAhead(v, ReadList(next).value, ReadList(next).rest);
    } else {
      ExpectSplits(more, ")");
    }
  }

  lemma ListAhead(v: string, vs: seq<string>, rest: string)
    requires vs != []
    ensures Join(Literals([v] + vs), ", ") + (")" + rest) ==
            Literal(v) + (", " + (Join(Literals(vs), ", ") + (")" + rest)))
  {
    var list := Join(Literals(vs), ", ");
    assert ([v] + vs)[1..] == vs;
    assert Literals([v] + vs) == [Literal(v)] + Literals(vs) && ([Literal(v)] + Literals(vs))[1..] == Literals(vs);
    Associative(Literal(v), ", " + list, ")" + rest);
    Associative(", ", list, ")" + rest);
  }

  lemma OnlyBetweensRead(col: string, s: string)
    requires ReadBetween(col, s).Read?
    ensures var c := ReadBetween(col, s).value;
            c.Between? && c.col == col && s == Literal(c.low) + (" AND " + (Literal(c.high) + ReadBetween(col, s).rest))
  {
    OnlyLiteralsRead(s);
    ExpectSplits(ReadLiteral(s).rest, " AND ");
    OnlyLiteralsRead(Expect(ReadLiteral(s).rest, " AND ").value);
  }

  lemma OnlyTestsRead(col: string, s: string)
    requires ReadTest(col, s).Read?
    ensures var c := ReadTest(col, s).value;
            c.col == col && (c.OneOf? ==> c.values != []) && s == Test(c) + ReadTest(col, s).rest
  {
    var c, rest := ReadTest(col, s).value, ReadTest(col, s).rest;
    if Expect(s, " = ").Some? {
      ExpectSplits(s, " = ");
      OnlyLiteralsRead(Expect(s, " = ").value);
      Associative(" = ", Literal(c.value), rest);
    } else if Expect(s, " IN (").Some? {
      ExpectSplits(s, " IN (");
      OnlyListsRead(Expect(s, " IN (").value);
      InTest(c.values, rest);
    } else {
      ExpectSplits(s, " BETWEEN ");
      OnlyBetweensRead(col, Expect(s, " BETWEEN ").value);
      BetweenTest(c.low, c.high, rest);
    }
  }

  lemma InTest(vs: seq<string>, rest: string)
    ensures Test(OneOf("", vs)) + rest == " IN (" + (Join(Literals(vs), ", ") + (")" + rest))
  {
    var list := Join(Literals(vs), ", ");
    Associative(" IN (", list + ")", rest);
    Associative(list, ")", rest);
  }

  lemma BetweenTest(low: string, high: string, rest: string)
    ensures Test(Between("", low, high)) + rest == " BETWEEN " + (Literal(low) + (" AND " + (Literal(high) + rest)))
  {
    var l, h := Literal(low), Literal(high);
    Associative(" BETWEEN ", l + (" AND " + h), rest);
    Associative(l, " AND " + h, rest);
    Associative(" AND ", h, rest);
  }

  /** Only the text of a condition on a name reads as a condition. */
  lemma OnlyCondsRead(s: string)
    requires ReadCond(s).Read?
    ensures Sound(ReadCond(s).value) && s == Text(ReadCond(s).value) + ReadCond(s).rest
  {
    var c, rest := ReadCond(s).value, ReadCond(s).rest;
    OnlyNamesRead(s);
    OnlyTestsRead(ReadName(s).value, ReadName(s).rest);
    Associative(c.col, Test(c), rest);
  }

  // ----- WHERE clauses -----

  /** The conditions a table's PK columns get from the input, in column order. */
  function Conditions(cols: seq<string>, keys: map<string, KeyCond>): seq<Cond> {
    if cols == [] then []
    else
      var first := if cols[0] in keys then Asked(cols[0], keys[cols[0]]) else None;
      (if first.None? then [] else [first.value]) + Conditions(cols[1..], keys)
  }

  function CondTexts(conds: seq<Cond>): (texts: seq<string>)
    ensures |texts| == |conds|
  {
    if conds == [] then [] else [Text(conds[0])] + CondTexts(conds[1..])
  }

  /** The second and later lines of a WHERE clause. */
  function AndLines(conds: seq<string>): string {
    if conds == [] then "" else "\n   AND " + (conds[0] + AndLines(conds[1..]))
  }

  function WhereText(conds: seq<string>): string
    requires conds != []
  {
    " WHERE " + (conds[0] + AndLines(conds[1..]))
  }

  function ReadAnds(s: string): Read<seq<Cond>>
    decreases |s|
  {
    match Expect(s, "\n   AND ")
    case None => Read([], s)
    case Some(more) =>
      match ReadCond(more)
      case Unread => Unread
      case Read(c, rest) =>
        if |rest| >= |s| then Unread
        else
          match ReadAnds(rest)
          case Unread => Unread
          case Read(cs, end) => Read([c] + cs, end)
  }

  /** After " WHERE " the first condition stands as the later ones do after their line start. */
  function ReadWhere(s: string): Read<seq<Cond>> {
    match Expect(s, " WHERE ")
    case None => Unread
    case Some(more) => ReadAnds("\n   AND " + more)
  }

  lemma {:induction false} AndsRead(conds: seq<Cond>, rest: string)
    requires AllSound(conds)
    requires rest != "" && rest[0] == ';'
    ensures ReadAnds(AndLines(CondTexts(conds)) + rest) == Read(conds, rest)
  {
    if conds == [] {
      assert "" + rest == rest;
      ExpectMiss(rest, "\n   AND ", 0);
    } else {
      var c, cs := conds[0], conds[1..];
      var tail := AndLines(CondTexts(cs)) + rest;
      assert conds == [c] + cs;
      AndAhead(c, cs, rest);
      AndsStart(CondTexts(cs), rest);
      CondReads(c, tail);
      AndsRead(cs, rest);
      AndStep(c, tail, cs, rest);
    }
  }

  lemma AndStep(c: Cond, tail: string, cs: seq<Cond>, rest: string)
    requires ReadCond(Text(c) + tail) == Read(c, tail) && ReadAnds(tail) == Read(cs, rest)
    ensures ReadAnds("\n   AND " + (Text(c) + tail)) == Read([c] + cs, rest)
  {
    ExpectHit("\n   AND ", Text(c) + tail);
  }

  lemma AndsStart(conds: seq<string>, rest: string)
    requires rest != "" && rest[0] == ';'
    ensures AndLines(conds) + rest != "" && (AndLines(conds) + rest)[0] != '\''
  {
  }

  /** A rendered WHERE clause, up to the ';' behind it, reads back as exactly its conditions. */
  lemma WhereReads(conds: seq<Cond>, rest: string)
    requires conds != [] && AllSound(conds)
    requires rest != "" && rest[0] == ';'
    ensures ReadWhere(WhereText(CondTexts(conds)) + rest) == Read(conds, rest)
  {
    var texts := CondTexts(conds);
    var body := texts[0] + AndLines(texts[1..]);
    Associative(" WHERE ", body, rest);
    ExpectHit(" WHERE ", body + rest);
    Associative("\n   AND ", body, rest);
    AndsRead(conds, rest);
  }

  /** What the input asks for is sound on name columns, and each condition is on one of the columns. */
  lemma {:induction false} ConditionsAreSound(cols: seq<string>, keys: map<string, KeyCond>)
    requires forall col :: col in cols ==> Name(col)
    ensures AllSound(Conditions(cols, keys))
    ensures forall c :: c in Conditions(cols, keys) ==> c.col in cols
  {
    if cols != [] {
      ConditionsAreSound(cols[1..], keys);
      assert cols[0] in cols;
      var rest := Conditions(cols[1..], keys);
      var all := Conditions(cols, keys);
      assert forall c :: c in rest ==> c.col in cols;
      if cols[0] in keys && Asked(cols[0], keys[cols[0]]).Some? {
        assert all == [Asked(cols[0], keys[cols[0]]).value] + rest && all[1..] == rest;
      } else {
        assert all == rest;
      }
    }
  }

  lemma {:induction false} OnlyAndsRead(s: string)
    requires ReadAnds(s).Read?
    ensures AllSound(ReadAnds(s).value) && s == AndLines(CondTexts(ReadAnds(s).value)) + ReadAnds(s).rest
    decreases |s|
  {
    if Expect(s, "\n   AND ").Some? {
      var more := Expect(s, "\n   AND ").value;
      var c, tail := ReadCond(more).value, ReadCond(more).rest;
      ExpectSplits(s, "\n   AND ");
      OnlyCondsRead(more);
      OnlyAndsRead(tail);
      AndAhead(c, ReadAnds(tail).value, ReadAnds(tail).rest);
    } else {
      assert "" + s == s;
    }
  }

  lemma AndAhead(c: Cond, cs: seq<Cond>, rest: string)
    ensures AndLines(CondTexts([c] + cs)) + rest == "\n   AND " + (Text(c) + (AndLines(CondTexts(cs)) + rest))
    ensures AllSound([c] + cs) <==> Sound(c) && AllSound(cs)
  {
    var texts, lines := CondTexts(cs), AndLines(CondTexts(cs));
    assert ([c] + cs)[1..] == cs;
    assert CondTexts([c] + cs) == [Text(c)] + texts && ([Text(c)] + texts)[1..] == texts;
    Associative("\n   AND ", Text(c) + lines, rest);
    Associative(Text(c), lines, rest);
  }

  /** Only the text of a WHERE clause reads as one. */
  lemma OnlyWheresRead(s: string)
    requires ReadWhere(s).Read?
    ensures ReadWhere(s).value != [] && AllSound(ReadWhere(s).value)
    ensures s == WhereText(CondTexts(ReadWhere(s).value)) + ReadWhere(s).rest
  {
    var more := Expect(s, " WHERE ").value;
    var lines := "\n   AND " + more;
    ExpectSplits(s, " WHERE ");
    ExpectHit("\n   AND ", more);
    OnlyAndsRead(lines);
    WhereAhead(ReadWhere(s).value, more, ReadWhere(s).rest);
  }

  lemma WhereAhead(conds: seq<Cond>, more: string, rest: string)
    requires conds != [] && "\n   AND " + more == AndLines(CondTexts(conds)) + rest
    ensures " WHERE " + more == WhereText(CondTexts(conds)) + rest
  {
    var texts := CondTexts(conds);
    var body := texts[0] + AndLines(texts[1..]);
    Associative("\n   AND ", body, rest);
    assert ("\n   AND " + more)[8..] == more && ("\n   AND " + (body + rest))[8..] == body + rest;
    Associative(" WHERE ", body, rest);
  }
}
