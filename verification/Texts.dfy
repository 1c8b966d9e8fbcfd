/** Strings as the Python sources use them: order, whitespace, splitting and joining. */
module Texts {

  datatype Option<+T> = None | Some(value: T)

  /** Code-point order on strings, the order Python's `sorted` uses. */
  predicate LexLe(a: string, b: string) {
    if a == "" then true
    else if b == "" then false
    else a[0] < b[0] || (a[0] == b[0] && LexLe(a[1..], b[1..]))
  }

  lemma {:induction false} LexLeReflexive(a: string)
    ensures LexLe(a, a)
  {
    if a != "" {
      LexLeReflexive(a[1..]);
    }
  }

  lemma {:induction false} LexLeTotal(a: string, b: string)
    ensures LexLe(a, b) || LexLe(b, a)
  {
    if a != "" && b != "" {
      LexLeTotal(a[1..], b[1..]);
    }
  }

  lemma {:induction false} LexLeAntisymmetric(a: string, b: string)
    requires LexLe(a, b) && LexLe(b, a)
    ensures a == b
  {
    if a != "" && b != "" {
      LexLeAntisymmetric(a[1..], b[1..]);
      assert a == [a[0]] + a[1..] && b == [b[0]] + b[1..];
    }
  }

  lemma {:induction false} LexLeTransitive(a: string, b: string, c: string)
    requires LexLe(a, b) && LexLe(b, c)
    ensures LexLe(a, c)
  {
    if a != "" && b != "" && a[0] == b[0] == c[0] {
      LexLeTransitive(a[1..], b[1..], c[1..]);
    }
  }

  /** A string comes no later than those it begins, and those with a greater character where they first differ. */
  lemma {:induction false} LexLeExactly(a: string, b: string)
    ensures LexLe(a, b) <==> a <= b || exists i :: 0 <= i < |a| && i < |b| && a[..i] == b[..i] && a[i] < b[i]
  {
    if a != "" && b != "" && a[0] == b[0] {
      LexLeExactly(a[1..], b[1..]);
      assert a == [a[0]] + a[1..] && b == [b[0]] + b[1..];
      if i :| 0 <= i < |a| && i < |b| && a[..i] == b[..i] && a[i] < b[i] {
        assert a[1..][..i - 1] == a[..i][1..] && b[1..][..i - 1] == b[..i][1..];
        assert a[1..][i - 1] < b[1..][i - 1];
      }
      if i :| 0 <= i < |a[1..]| && i < |b[1..]| && a[1..][..i] == b[1..][..i] && a[1..][i] < b[1..][i] {
        assert a[..i + 1] == [a[0]] + a[1..][..i] && b[..i + 1] == [b[0]] + b[1..][..i];
        assert a[i + 1] < b[i + 1];
      }
    } else if a != "" && b != "" {
      assert a[..0] == b[..0];
      assert !(a <= b);
      if i :| 0 <= i < |a| && i < |b| && a[..i] == b[..i] && a[i] < b[i] {
        assert i > 0 ==> a[..i][0] == b[..i][0];
      }
    }
  }

  lemma LexLeIsTotalOrder()
    ensures TotalOrder(LexLe)
  {
    forall a, b | LexLe(a, b) && LexLe(b, a) ensures a == b { LexLeAntisymmetric(a, b); }
    forall a, b ensures LexLe(a, b) || LexLe(b, a) { LexLeTotal(a, b); }
    forall a, b, c | LexLe(a, b) && LexLe(b, c) ensures LexLe(a, c) { LexLeTransitive(a, b, c); }
  }

  ghost predicate TotalOrder<T(!new)>(le: (T, T) -> bool) {
    && (forall a, b :: le(a, b) || le(b, a))
    && (forall a, b :: le(a, b) && le(b, a) ==> a == b)
    && (forall a, b, c :: le(a, b) && le(b, c) ==> le(a, c))
  }

  ghost predicate Ascending<T>(xs: seq<T>, le: (T, T) -> bool) {
    forall i, j :: 0 <= i < j < |xs| ==> le(xs[i], xs[j]) && xs[i] != xs[j]
  }

  function Elements<T>(xs: seq<T>): (s: set<T>)
  {
    set x | x in xs
  }

  lemma {:induction false} Least<T(!new)>(s: set<T>, le: (T, T) -> bool) returns (m: T)
    requires s != {} && TotalOrder(le)
    ensures m in s && forall x :: x in s ==> le(m, x)
  {
    var y :| y in s;
    assert le(y, y);
    m := y;
    if s != {y} {
      var k := Least(s - {y}, le);
      m := if le(k, y) then k else y;
      forall x | x in s ensures le(m, x) {
        if x != y {
          assert x in s - {y} && le(k, x);
        }
      }
    }
  }

  lemma LeastExists<T(!new)>(s: set<T>, le: (T, T) -> bool)
    requires s != {} && TotalOrder(le)
    ensures exists m :: m in s && forall x :: x in s ==> le(m, x)
  {
    var m := Least(s, le);
  }

  /** `sorted(s)` for a set `s`: every element once, in ascending order. */
  function Sorted<T(!new)>(s: set<T>, le: (T, T) -> bool): (xs: seq<T>)
    requires TotalOrder(le)
    ensures Elements(xs) == s
    ensures Ascending(xs, le)
  {
    if s == {} then []
    else
      LeastExists(s, le);
      var m :| m in s && forall x :: x in s ==> le(m, x);
      var rest := Sorted(s - {m}, le);
      assert forall x :: x in rest <==> x in Elements(rest);
      [m] + rest
  }

  function SortedTexts(s: set<string>): (xs: seq<string>)
    ensures Elements(xs) == s
    ensures Ascending(xs, LexLe)
  {
    LexLeIsTotalOrder();
    Sorted(s, LexLe)
  }

  lemma ElementsOfConcat<T>(a: seq<T>, b: seq<T>)
    ensures Elements(a + b) == Elements(a) + Elements(b)
  {
    assert forall x :: x in a + b <==> x in a || x in b;
  }

  lemma HasMember<T(!new)>(xs: seq<T>)
    ensures xs == [] || exists x :: x in xs
  {
    if xs != [] {
      assert xs[0] in xs;
    }
  }

  lemma Associative<T>(a: seq<T>, b: seq<T>, c: seq<T>)
    ensures a + b + c == a + (b + c)
  {
  }

  function Reverse<T>(xs: seq<T>): (r: seq<T>)
    ensures |r| == |xs|
    ensures forall i :: 0 <= i < |xs| ==> r[i] == xs[|xs| - 1 - i]
  {
    if xs == [] then [] else Reverse(xs[1..]) + [xs[0]]
  }

  /** Neighbours related one way round are, in the reversed sequence, related the other way round. */
  lemma ReverseTurnsLinks<T>(xs: seq<T>, rel: (T, T) -> bool)
    requires forall i :: 0 < i < |xs| ==> rel(xs[i], xs[i - 1])
    ensures forall i :: 0 < i < |xs| ==> rel(Reverse(xs)[i - 1], Reverse(xs)[i])
  {
    forall i | 0 < i < |xs| ensures rel(Reverse(xs)[i - 1], Reverse(xs)[i]) {
      var k := |xs| - i;
      assert rel(xs[k], xs[k - 1]);
    }
  }

  lemma ReverseTurnsBack<T>(xs: seq<T>, rel: (T, T) -> bool)
    requires forall i :: 0 < i < |xs| ==> rel(xs[i - 1], xs[i])
    ensures forall i :: 0 < i < |xs| ==> rel(Reverse(xs)[i], Reverse(xs)[i - 1])
  {
    forall i | 0 < i < |xs| ensures rel(Reverse(xs)[i], Reverse(xs)[i - 1]) {
      var k := |xs| - i;
      assert rel(xs[k - 1], xs[k]);
    }
  }

  /** `[x for x in xs if keep(x)]`. */
  function Filter<T(!new)>(xs: seq<T>, keep: T -> bool): (r: seq<T>)
    ensures forall x :: x in r <==> x in xs && keep(x)
  {
    if xs == [] then [] else (if keep(xs[0]) then [xs[0]] else []) + Filter(xs[1..], keep)
  }

  /** Filtering keeps the order: the `i`-th and `j`-th kept elements stood in that order. */
  lemma {:induction false} FilterKeepsOrder<T(!new)>(xs: seq<T>, keep: T -> bool, i: nat, j: nat)
    returns (k: nat, m: nat)
    requires i < j < |Filter(xs, keep)|
    ensures k < m < |xs| && xs[k] == Filter(xs, keep)[i] && xs[m] == Filter(xs, keep)[j]
  {
    var rest := Filter(xs[1..], keep);
    if !keep(xs[0]) {
      k, m := FilterKeepsOrder(xs[1..], keep, i, j);
      k, m := k + 1, m + 1;
    } else if i > 0 {
      k, m := FilterKeepsOrder(xs[1..], keep, i - 1, j - 1);
      k, m := k + 1, m + 1;
    } else {
      assert rest[j - 1] in xs[1..];
      m :| 0 <= m < |xs[1..]| && xs[1..][m] == rest[j - 1];
      k, m := 0, m + 1;
    }
  }

  lemma {:induction false} FilterOfConcat<T(!new)>(a: seq<T>, b: seq<T>, keep: T -> bool)
    ensures Filter(a + b, keep) == Filter(a, keep) + Filter(b, keep)
  {
    if a == [] {
      assert a + b == b;
    } else {
      assert (a + b)[1..] == a[1..] + b;
      FilterOfConcat(a[1..], b, keep);
    }
  }

  lemma {:induction false} FilterAll<T(!new)>(xs: seq<T>, keep: T -> bool)
    requires forall x :: x in xs ==> keep(x)
    ensures Filter(xs, keep) == xs
  {
    if xs != [] {
      assert xs[0] in xs;
      FilterAll(xs[1..], keep);
      assert xs == [xs[0]] + xs[1..];
    }
  }

  lemma {:induction false} FilterAgrees<T(!new)>(ts: seq<T>, p: T -> bool, q: T -> bool)
    requires forall t :: t in ts ==> p(t) == q(t)
    ensures Filter(ts, p) == Filter(ts, q)
  {
    if ts != [] {
      assert ts[0] in ts;
      FilterAgrees(ts[1..], p, q);
    }
  }

  lemma FilterSnoc<T(!new)>(xs: seq<T>, x: T, keep: T -> bool)
    ensures keep(x) ==> Filter(xs + [x], keep) == Filter(xs, keep) + [x]
    ensures !keep(x) ==> Filter(xs + [x], keep) == Filter(xs, keep)
  {
    FilterOfConcat(xs, [x], keep);
    assert Filter([x], keep) == if keep(x) then [x] else [];
  }

  /** `[f(x) for x in xs]`. */
  function Mapped<T, U>(xs: seq<T>, f: T -> U): seq<U> {
    if xs == [] then [] else [f(xs[0])] + Mapped(xs[1..], f)
  }

  /** Filters for three complementary tests share out every occurrence. */
  lemma {:induction false} FiltersPartition<T(!new)>(xs: seq<T>, p: T -> bool, q: T -> bool, r: T -> bool)
    requires forall x :: (p(x) ==> !q(x) && !r(x)) && (q(x) ==> !r(x)) && (p(x) || q(x) || r(x))
    ensures multiset(Filter(xs, p)) + multiset(Filter(xs, q)) + multiset(Filter(xs, r)) == multiset(xs)
  {
    if xs != [] {
      FiltersPartition(xs[1..], p, q, r);
      assert xs == [xs[0]] + xs[1..];
    }
  }

  /** The elements of `xs` without repeats, each where it first occurs. */
  function Dedupe<T(==)>(xs: seq<T>): (r: seq<T>)
    ensures Elements(r) == Elements(xs)
  {
    if xs == [] then []
    else
      var front, last := xs[..|xs| - 1], xs[|xs| - 1];
      assert xs == front + [last];
      ElementsOfConcat(front, [last]);
      ElementsOfConcat(Dedupe(front), [last]);
      assert last in front <==> last in Elements(Dedupe(front));
      if last in front then Dedupe(front) else Dedupe(front) + [last]
  }

  lemma DedupeSnoc<T>(xs: seq<T>, x: T)
    ensures Dedupe(xs + [x]) == if x in Dedupe(xs) then Dedupe(xs) else Dedupe(xs) + [x]
  {
    assert (xs + [x])[..|xs|] == xs;
    assert x in Dedupe(xs) <==> x in Elements(Dedupe(xs));
  }

  lemma {:induction false} DedupeHasNoRepeats<T>(xs: seq<T>)
    ensures forall i, j :: 0 <= i < j < |Dedupe(xs)| ==> Dedupe(xs)[i] != Dedupe(xs)[j]
  {
    if xs != [] {
      var front, last := xs[..|xs| - 1], xs[|xs| - 1];
      DedupeHasNoRepeats(front);
      assert last in front <==> last in Elements(Dedupe(front));
      assert forall i :: 0 <= i < |Dedupe(front)| ==> Dedupe(front)[i] in Elements(Dedupe(front));
    }
  }

  /** The first occurrence of an earlier element precedes every occurrence of a later one. */
  lemma {:induction false} DedupeKeepsOrder<T(!new)>(xs: seq<T>, i: nat, j: nat) returns (k: nat)
    requires i < j < |Dedupe(xs)|
    ensures k < |xs| && xs[k] == Dedupe(xs)[i]
    ensures forall l :: 0 <= l < |xs| && xs[l] == Dedupe(xs)[j] ==> k < l
  {
    var front, last := xs[..|xs| - 1], xs[|xs| - 1];
    assert last in front <==> last in Elements(front);
    if j < |Dedupe(front)| {
      k := DedupeKeepsOrder(front, i, j);
    } else {
      assert Dedupe(xs)[i] in Elements(Dedupe(front));
      k :| 0 <= k < |front| && front[k] == Dedupe(xs)[i];
    }
  }

  /** `xs[i]` is the first element with property `p`. */
  ghost predicate FirstWith<T>(xs: seq<T>, i: int, p: T -> bool) {
    0 <= i < |xs| && p(xs[i]) && forall j :: 0 <= j < i ==> !p(xs[j])
  }

  lemma FirstWithAhead<T>(xs: seq<T>, i: int, p: T -> bool)
    requires xs != [] && !p(xs[0]) && FirstWith(xs[1..], i, p)
    ensures FirstWith(xs, i + 1, p) && xs[i + 1] == xs[1..][i]
  {
    assert forall j :: 0 < j < i + 1 ==> xs[j] == xs[1..][j - 1];
  }

  /** `str.isspace` for one character, the set `str.strip()` removes. */
  predicate IsSpace(c: char) {
    || '\t' <= c <= '\r'
    || '\U{1c}' <= c <= ' '
    || c == '\U{85}' || c == '\U{a0}' || c == '\U{1680}'
    || '\U{2000}' <= c <= '\U{200a}'
    || c == '\U{2028}' || c == '\U{2029}' || c == '\U{202f}' || c == '\U{205f}' || c == '\U{3000}'
  }

  function StripLeft(s: string): string {
    if s == "" || !IsSpace(s[0]) then s else StripLeft(s[1..])
  }

  function StripRight(s: string): string {
    if s == "" || !IsSpace(s[|s| - 1]) then s else StripRight(s[..|s| - 1])
  }

  /** `str.strip()`. */
  function Strip(s: string): string {
    StripRight(StripLeft(s))
  }

  lemma {:induction false} StripLeftIsSuffix(s: string)
    ensures var r := StripLeft(s);
            |r| <= |s| && r == s[|s| - |r|..] && (r == "" || !IsSpace(r[0])) && forall c :: c in r ==> c in s
  {
    if s != "" && IsSpace(s[0]) {
      StripLeftIsSuffix(s[1..]);
    }
  }

  lemma {:induction false} StripRightIsPrefix(s: string)
    ensures StripRight(s) <= s && (StripRight(s) == "" || !IsSpace(StripRight(s)[|StripRight(s)| - 1]))
  {
    if s != "" && IsSpace(s[|s| - 1]) {
      StripRightIsPrefix(s[..|s| - 1]);
    }
  }

  /** Exactly the white space in front and behind goes. */
  lemma StripExactly(s: string) returns (left: string, right: string)
    ensures s == left + Strip(s) + right
    ensures (forall c :: c in left ==> IsSpace(c)) && (forall c :: c in right ==> IsSpace(c))
    ensures var r := Strip(s); r != "" ==> !IsSpace(r[0]) && !IsSpace(r[|r| - 1])
  {
    left := LeftSpace(s);
    right := RightSpace(StripLeft(s));
    StripLeavesNoSpace(s);
    Associative(left, Strip(s), right);
  }

  lemma {:induction false} LeftSpace(s: string) returns (left: string)
    ensures s == left + StripLeft(s) && forall c :: c in left ==> IsSpace(c)
  {
    if s == "" || !IsSpace(s[0]) {
      left := "";
    } else {
      left := LeftSpace(s[1..]);
      left := [s[0]] + left;
    }
  }

  lemma {:induction false} RightSpace(s: string) returns (right: string)
    ensures s == StripRight(s) + right && forall c :: c in right ==> IsSpace(c)
  {
    if s == "" || !IsSpace(s[|s| - 1]) {
      right := "";
    } else {
      right := RightSpace(s[..|s| - 1]);
      right := right + [s[|s| - 1]];
    }
  }

  /** What is left neither begins nor ends with white space, and is a stretch of the original. */
  lemma StripLeavesNoSpace(s: string)
    ensures var r := Strip(s);
            && (r == "" || (!IsSpace(r[0]) && !IsSpace(r[|r| - 1])))
            && (forall c :: c in r ==> c in s)
  {
    StripLeftIsSuffix(s);
    StripRightIsPrefix(StripLeft(s));
  }

  function UpperChar(c: char): char {
    if 'a' <= c <= 'z' then c - 'a' + 'A' else c
  }

  /** `str.upper()` on ASCII letters. */
  function Upper(s: string): (r: string)
    ensures |r| == |s|
    ensures forall i :: 0 <= i < |s| ==> r[i] == UpperChar(s[i])
  {
    if s == "" then "" else [UpperChar(s[0])] + Upper(s[1..])
  }

  lemma UpperTwice(s: string)
    ensures Upper(Upper(s)) == Upper(s)
  {
    forall i | 0 <= i < |s| ensures Upper(Upper(s))[i] == Upper(s)[i] {
      assert UpperChar(UpperChar(s[i])) == UpperChar(s[i]);
    }
  }

  /** `s.split(sep)` for a one-character separator. */
  function Split(s: string, sep: char): (parts: seq<string>)
    ensures |parts| > 0
  {
    if s == "" then [""]
    else
      var rest := Split(s[1..], sep);
      if s[0] == sep then [""] + rest else [[s[0]] + rest[0]] + rest[1..]
  }

  lemma {:induction false} SplitPart(s: string, sep: char, p: string)
    requires p in Split(s, sep)
    ensures sep !in p && forall c :: c in p ==> c in s
  {
    if s != "" {
      var rest := Split(s[1..], sep);
      if s[0] == sep {
        if p != "" {
          SplitPart(s[1..], sep, p);
        }
      } else if p == [s[0]] + rest[0] {
        SplitPart(s[1..], sep, rest[0]);
      } else {
        SplitPart(s[1..], sep, p);
      }
    }
  }

  /** `sep.join(parts)`. */
  function Join(parts: seq<string>, sep: string): string {
    if |parts| == 0 then ""
    else if |parts| == 1 then parts[0]
    else parts[0] + (sep + Join(parts[1..], sep))
  }

  /** Splitting cuts at every separator and nowhere else. */
  lemma {:induction false} SplitExactly(s: string, sep: char)
    ensures Join(Split(s, sep), [sep]) == s && forall p :: p in Split(s, sep) ==> sep !in p
  {
    if s != "" {
      SplitExactly(s[1..], sep);
      JoinAhead(s[0], Split(s[1..], sep), [sep]);
    }
    forall p | p in Split(s, sep) ensures sep !in p {
      SplitPart(s, sep, p);
    }
  }

  lemma JoinAhead(c: char, parts: seq<string>, sep: string)
    requires parts != []
    ensures Join([""] + parts, sep) == sep + Join(parts, sep)
    ensures Join([[c] + parts[0]] + parts[1..], sep) == [c] + Join(parts, sep)
  {
    assert ([""] + parts)[1..] == parts && "" + (sep + Join(parts, sep)) == sep + Join(parts, sep);
    assert ([[c] + parts[0]] + parts[1..])[1..] == parts[1..];
    if |parts| > 1 {
      Associative([c], parts[0], sep + Join(parts[1..], sep));
    }
  }

  lemma {:induction false} SplitAfterPart(p: string, sep: char, rest: string)
    requires sep !in p
    ensures Split(p, sep) == [p]
    ensures Split(p + [sep] + rest, sep) == [p] + Split(rest, sep)
  {
    var s := p + [sep] + rest;
    if p == "" {
      assert s[1..] == rest;
    } else {
      SplitAfterPart(p[1..], sep, rest);
      assert s[1..] == p[1..] + [sep] + rest;
      assert [p[0]] + p[1..] == p;
    }
  }

  predicate Letter(c: char) {
    'A' <= c <= 'Z' || 'a' <= c <= 'z'
  }

  /** The characters of an unquoted Oracle name, with '.' between its parts. */
  predicate NameChar(c: char) {
    Letter(c) || '0' <= c <= '9' || c == '_' || c == '$' || c == '#' || c == '.'
  }

  predicate StartsWith(s: string, prefix: string) {
    |prefix| <= |s| && s[..|prefix|] == prefix
  }

  predicate EndsWith(s: string, suffix: string) {
    |suffix| <= |s| && s[|s| - |suffix|..] == suffix
  }

  /** The remainder of `s` after `prefix`, when `s` starts with it. */
  function Expect(s: string, prefix: string): Option<string> {
    if StartsWith(s, prefix) then Some(s[|prefix|..]) else None
  }

  lemma ExpectHit(prefix: string, rest: string)
    ensures Expect(prefix + rest, prefix) == Some(rest)
  {
    assert (prefix + rest)[..|prefix|] == prefix;
    assert (prefix + rest)[|prefix|..] == rest;
  }

  lemma ExpectSplits(s: string, prefix: string)
    requires Expect(s, prefix).Some?
    ensures s == prefix + Expect(s, prefix).value
  {
  }

  lemma ExpectMiss(s: string, prefix: string, i: nat)
    requires i < |s| && i < |prefix| && s[i] != prefix[i]
    ensures Expect(s, prefix) == None
  {
    assert |prefix| <= |s| ==> s[..|prefix|][i] == s[i];
  }
}
