/** Where module sources live, how one is looked up, and the group map that speeds the lookup up. */
module ModuleSource {
  import opened Texts
  import opened ProFrame

  const COMPILE_ROOT := "/truap01dap1/proframe/proframe5.0/compile"

  // ----- Paths -----

  function SubDir(kind: Kind): string
    requires !kind.Dbio?
  {
    match kind case Service => "serviceModule" case Batch => "batch" case Biz => "module"
  }

  function RelPath(kind: Kind, id: string): string
    requires !kind.Dbio?
  {
    SubDir(kind) + "/" + (if kind.Service? then id + "/" + id else id) + ".c"
  }

  function ModulePath(kind: Kind, group: string, id: string): string
    requires !kind.Dbio?
  {
    COMPILE_ROOT + "/" + group + "/src/" + RelPath(kind, id)
  }

  /** The part of `s` before its first '/', and the rest from that '/' on. */
  function UpToSlash(s: string): (n: nat)
    ensures n <= |s|
  {
    if s == "" || s[0] == '/' then 0 else 1 + UpToSlash(s[1..])
  }

  lemma {:induction false} StopsAtSlash(s: string)
    ensures var n := UpToSlash(s);
            '/' !in s[..n] && (n < |s| ==> s[n] == '/') && (n == |s| <==> '/' !in s)
  {
    if s != "" && s[0] != '/' {
      StopsAtSlash(s[1..]);
      assert s == [s[0]] + s[1..] && s[..UpToSlash(s)] == [s[0]] + s[1..][..UpToSlash(s[1..])];
    }
  }

  function LastSegment(s: string): string
    decreases |s|
  {
    var n := UpToSlash(s);
    if n == |s| then s else LastSegment(s[n + 1..])
  }

  /** The last segment is what follows the last '/'. */
  lemma {:induction false} LastSegmentExactly(s: string) returns (front: string)
    ensures s == front + LastSegment(s) && '/' !in LastSegment(s) && (front == "" || front[|front| - 1] == '/')
    ensures '/' !in s ==> front == ""
    decreases |s|
  {
    var n := UpToSlash(s);
    StopsAtSlash(s);
    if n == |s| {
      front := "";
    } else {
      var head, tail := s[..n + 1], s[n + 1..];
      assert s == head + tail && head[|head| - 1] == '/';
      front := LastSegmentExactly(tail);
      var last := LastSegment(tail);
      assert LastSegment(s) == last && tail == front + last;
      Associative(head, front, last);
      front := head + front;
    }
  }

  datatype Located = Located(kind: Kind, group: string, id: string)

  /** What follows the sub-directory: a non-empty path without line break, then ".c", then possibly
      one line break at the very end, which `$` tolerates. */
  function Stem(body: string): Option<string> {
    var b := if EndsWith(body, "\n") then body[..|body| - 1] else body;
    if |b| > 2 && EndsWith(b, ".c") && '\n' !in b[..|b| - 2] then Some(b[..|b| - 2]) else None
  }

  function ParseTail(kind: Kind, group: string, body: string): Option<Located> {
    match Stem(body)
    case None => None
    case Some(stem) => Some(Located(kind, group, LastSegment(stem)))
  }

  function ParseSub(group: string, tail: string): Option<Located> {
    if Expect(tail, "serviceModule/").Some? then ParseTail(Service, group, Expect(tail, "serviceModule/").value)
    else if Expect(tail, "batch/").Some? then ParseTail(Batch, group, Expect(tail, "batch/").value)
    else if Expect(tail, "module/").Some? then ParseTail(Biz, group, Expect(tail, "module/").value)
    else None
  }

  function ParseGroup(rest: string): Option<Located> {
    var n := UpToSlash(rest);
    if n == 0 then None else
      match Expect(rest[n..], "/src/")
      case None => None
      case Some(tail) => ParseSub(rest[..n], tail)
  }

  function ParseModulePath(path: string): Option<Located> {
    match Expect(path, COMPILE_ROOT + "/")
    case None => None
    case Some(rest) => ParseGroup(rest)
  }

  /** The IDs and groups a path can carry. */
  predicate Addressable(kind: Kind, group: string, id: string) {
    group != "" && '/' !in group && '/' !in id && '\n' !in id && (kind.Service? || id != "")
  }

  function Body(kind: Kind, id: string): string {
    if kind.Service? then id + "/" + id else id
  }

  lemma PathPieces(kind: Kind, group: string, id: string)
    requires !kind.Dbio?
    ensures Expect(ModulePath(kind, group, id), COMPILE_ROOT + "/") ==
            Some(group + ("/src/" + (SubDir(kind) + "/" + (Body(kind, id) + ".c"))))
  {
    var tail := "/src/" + (SubDir(kind) + "/" + (Body(kind, id) + ".c"));
    assert ModulePath(kind, group, id) == (COMPILE_ROOT + "/") + (group + tail);
    ExpectHit(COMPILE_ROOT + "/", group + tail);
  }

  lemma {:induction false} SlashAfter(a: string, b: string)
    requires b != "" && b[0] == '/'
    ensures UpToSlash(a + b) == UpToSlash(a)
  {
    if a != "" && a[0] != '/' {
      assert (a + b)[1..] == a[1..] + b;
      SlashAfter(a[1..], b);
    }
  }

  lemma LastOfPlain(s: string)
    ensures LastSegment(s) == s <==> '/' !in s
  {
    StopsAtSlash(s);
    if '/' in s {
      var front := LastSegmentExactly(s);
    }
  }

  lemma {:induction false} LastOfDoubled(id: string)
    requires '/' !in id
    ensures LastSegment(id + "/" + id) == id
  {
    var s := id + "/" + id;
    assert s == id + ("/" + id);
    SlashAfter(id, "/" + id);
    StopsAtSlash(id);
    LastOfPlain(id);
    assert s[|id| + 1..] == id;
  }

  lemma StemOfBody(body: string)
    ensures Stem(body + ".c") == if body != "" && '\n' !in body then Some(body) else None
  {
    var b := body + ".c";
    assert b[|b| - 1] == 'c' && b[|b| - 2..] == ".c" && b[..|b| - 2] == body;
    assert b[|b| - 1..] == "c";
  }

  lemma SubDirsApart(kind: Kind, rest: string)
    requires !kind.Dbio?
    ensures forall k: Kind :: !k.Dbio? ==>
              Expect(SubDir(kind) + "/" + rest, SubDir(k) + "/") == if k == kind then Some(rest) else None
  {
    var s := SubDir(kind) + "/" + rest;
    ExpectHit(SubDir(kind) + "/", rest);
    forall k: Kind | !k.Dbio? && k != kind ensures Expect(s, SubDir(k) + "/") == None {
      var p := SubDir(k) + "/";
      assert s[0] == SubDir(kind)[0] && p[0] == SubDir(k)[0] && p[0] != s[0];
      assert |p| <= |s| ==> s[..|p|][0] == s[0];
    }
  }

  lemma StemOfPath(kind: Kind, id: string)
    requires !kind.Dbio?
    ensures var t := Stem(Body(kind, id) + ".c");
            t.Some? && LastSegment(t.value) == id <==> '/' !in id && '\n' !in id && (kind.Service? || id != "")
  {
    StemOfBody(Body(kind, id));
    LastOfPlain(id);
    if kind.Service? && '/' !in id {
      LastOfDoubled(id);
    } else if kind.Service? {
      var front := LastSegmentExactly(Body(kind, id));
    }
    if kind.Service? && '\n' in id {
      assert '\n' in id + "/" + id;
    }
  }

  lemma SubParses(kind: Kind, group: string, id: string)
    requires !kind.Dbio?
    ensures ParseSub(group, SubDir(kind) + "/" + (Body(kind, id) + ".c")) ==
            ParseTail(kind, group, Body(kind, id) + ".c")
  {
    SubDirsApart(kind, Body(kind, id) + ".c");
    assert SubDir(Service) + "/" == "serviceModule/" && SubDir(Batch) + "/" == "batch/" &&
           SubDir(Biz) + "/" == "module/";
  }

  lemma {:induction false} SubKeepsGroup(group: string, tail: string)
    ensures ParseSub(group, tail).Some? ==> ParseSub(group, tail).value.group == group
  {
  }

  lemma GroupParses(group: string, sub: string)
    ensures group != "" && '/' !in group ==> ParseGroup(group + ("/src/" + sub)) == ParseSub(group, sub)
    ensures group == "" || '/' in group ==>
              ParseGroup(group + ("/src/" + sub)).None? || ParseGroup(group + ("/src/" + sub)).value.group != group
  {
    var tail := "/src/" + sub;
    var rest := group + tail;
    SlashAfter(group, tail);
    StopsAtSlash(group);
    StopsAtSlash(rest);
    var n := UpToSlash(rest);
    if n == |group| {
      assert rest[..n] == group && rest[n..] == tail;
      ExpectHit("/src/", sub);
    } else if n > 0 && Expect(rest[n..], "/src/").Some? {
      SubKeepsGroup(rest[..n], Expect(rest[n..], "/src/").value);
    }
  }

  /** `parse_module_path` undoes `module_path` exactly on addressable IDs and groups. */
  lemma ParseUndoesPath(kind: Kind, group: string, id: string)
    requires !kind.Dbio?
    ensures ParseModulePath(ModulePath(kind, group, id)) == Some(Located(kind, group, id)) <==>
            Addressable(kind, group, id)
  {
    PathPieces(kind, group, id);
    GroupParses(group, SubDir(kind) + "/" + (Body(kind, id) + ".c"));
    if group != "" && '/' !in group {
      SubParses(kind, group, id);
      StemOfPath(kind, id);
    }
  }
}
