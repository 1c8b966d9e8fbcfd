/** What module paths, lookups and the group map answer, in terms of the remote tree alone. */
module LookupAnswer {
  import opened Texts
  import opened ProFrame
  import opened ModuleSource
  import opened ModuleLookup

  // ----- Paths -----

  /** A service lies in a directory of its own name, a batch and a biz do not. */
  lemma PathsSpelledOut(group: string, id: string)
    ensures ModulePath(Service, group, id) ==
            COMPILE_ROOT + "/" + group + "/src/" + ("serviceModule/" + (id + "/" + id) + ".c")
    ensures ModulePath(Batch, group, id) == COMPILE_ROOT + "/" + group + "/src/" + ("batch/" + id + ".c")
    ensures ModulePath(Biz, group, id) == COMPILE_ROOT + "/" + group + "/src/" + ("module/" + id + ".c")
  {
    assert SubDir(Service) + "/" == "serviceModule/";
    assert SubDir(Batch) + "/" == "batch/";
    assert SubDir(Biz) + "/" == "module/";
  }

  /** What a path has to look like: kind and group, then anything without line break that ends in ".c", at most one line
      break behind it. */
  ghost predicate IsModulePath(path: string, kind: Kind, group: string, stem: string, end: string)
    requires !kind.Dbio?
  {
    && group != "" && '/' !in group && stem != "" && '\n' !in stem && (end == "" || end == "\n")
    && path == (COMPILE_ROOT + "/") + (group + ("/src/" + (SubDir(kind) + "/" + (stem + ".c" + end))))
  }

  lemma StemExactly(stem: string, end: string)
    requires stem != "" && '\n' !in stem && (end == "" || end == "\n")
    ensures Stem(stem + ".c" + end) == Some(stem)
  {
    var body := stem + ".c" + end;
    StemOfBody(stem);
    if end == "\n" {
      assert body[|body| - 1..] == "\n" && body[..|body| - 1] == stem + ".c";
    } else {
      assert body == stem + ".c";
    }
  }

  /** Every such path is parsed: the ID is what follows the last '/'. */
  lemma SuchPathsParse(path: string, kind: Kind, group: string, stem: string, end: string)
    requires !kind.Dbio? && IsModulePath(path, kind, group, stem, end)
    ensures ParseModulePath(path) == Some(Located(kind, group, LastSegment(stem)))
  {
    var body := stem + ".c" + end;
    ExpectHit(COMPILE_ROOT + "/", group + ("/src/" + (SubDir(kind) + "/" + body)));
    GroupParses(group, SubDir(kind) + "/" + body);
    SubParsesBody(kind, group, body);
    StemExactly(stem, end);
  }

  lemma SubParsesBody(kind: Kind, group: string, body: string)
    requires !kind.Dbio?
    ensures ParseSub(group, SubDir(kind) + "/" + body) == ParseTail(kind, group, body)
  {
    SubDirsApart(kind, body);
    assert SubDir(Service) + "/" == "serviceModule/" && SubDir(Batch) + "/" == "batch/" &&
           SubDir(Biz) + "/" == "module/";
  }

  lemma StemSplits(body: string) returns (end: string)
    requires Stem(body).Some?
    ensures (end == "" || end == "\n") && body == Stem(body).value + ".c" + end
    ensures Stem(body).value != "" && '\n' !in Stem(body).value
  {
    end := if EndsWith(body, "\n") then "\n" else "";
    var b := if EndsWith(body, "\n") then body[..|body| - 1] else body;
    assert body == b + end && b == b[..|b| - 2] + ".c";
  }

  lemma SubSplits(group: string, tail: string) returns (kind: Kind, stem: string, end: string)
    requires ParseSub(group, tail).Some?
    ensures !kind.Dbio? && stem != "" && '\n' !in stem && (end == "" || end == "\n")
    ensures tail == SubDir(kind) + "/" + (stem + ".c" + end)
    ensures ParseSub(group, tail) == Some(Located(kind, group, LastSegment(stem)))
  {
    assert SubDir(Service) + "/" == "serviceModule/" && SubDir(Batch) + "/" == "batch/" &&
           SubDir(Biz) + "/" == "module/";
    kind := if Expect(tail, "serviceModule/").Some? then Service
            else if Expect(tail, "batch/").Some? then Batch else Biz;
    ExpectSplits(tail, SubDir(kind) + "/");
    var body := Expect(tail, SubDir(kind) + "/").value;
    end := StemSplits(body);
    stem := Stem(body).value;
  }

  lemma GroupSplits(rest: string) returns (tail: string, kind: Kind, stem: string, end: string)
    requires ParseGroup(rest).Some?
    ensures ParseGroup(rest).value == Located(kind, ParseGroup(rest).value.group, LastSegment(stem))
    ensures !kind.Dbio? && stem != "" && '\n' !in stem && (end == "" || end == "\n")
    ensures tail == SubDir(kind) + "/" + (stem + ".c" + end)
    ensures var group := ParseGroup(rest).value.group;
            group != "" && '/' !in group && rest == group + ("/src/" + tail)
  {
    var n := UpToSlash(rest);
    StopsAtSlash(rest);
    var group, more := rest[..n], rest[n..];
    assert rest == group + more;
    ExpectSplits(more, "/src/");
    tail := Expect(more, "/src/").value;
    kind, stem, end := SubSplits(group, tail);
  }

  /** No other path is. */
  lemma OnlySuchPathsParse(path: string) returns (stem: string, end: string)
    requires ParseModulePath(path).Some?
    ensures var at := ParseModulePath(path).value;
            !at.kind.Dbio? && IsModulePath(path, at.kind, at.group, stem, end) && at.id == LastSegment(stem)
  {
    var root := COMPILE_ROOT + "/";
    ExpectSplits(path, root);
    var tail: string, kind: Kind;
    tail, kind, stem, end := GroupSplits(Expect(path, root).value);
  }

  // ----- Looking a module up -----

  /** The group's file is not just missing. */
  function Answering(t: Tree, kind: Kind, id: string): string -> bool
    requires !kind.Dbio?
  {
    (group: string) => ReadFile(t, ModulePath(kind, group, id)) != Failed(NotFound)
  }

  /** `r` is what the first group answers whose file is not just missing; not found when all are missing. */
  ghost predicate FirstAnswer(t: Tree, kind: Kind, id: string, groups: seq<string>, r: Result<string>)
    requires !kind.Dbio?
  {
    || (r == Failed(NotFound) && forall g :: g in groups ==> !Answering(t, kind, id)(g))
    || (exists i :: FirstWith(groups, i, Answering(t, kind, id)) && ReadFile(t, ModulePath(kind, groups[i], id)) == r)
  }

  lemma {:induction false} FirstFoundExactly(t: Tree, kind: Kind, id: string, groups: seq<string>)
    requires !kind.Dbio?
    ensures FirstAnswer(t, kind, id, groups, FirstFound(t, kind, id, groups))
  {
    if groups != [] {
      var p, rest, r := Answering(t, kind, id), groups[1..], FirstFound(t, kind, id, groups);
      assert groups == [groups[0]] + rest;
      if p(groups[0]) {
        assert FirstWith(groups, 0, p);
      } else {
        FirstFoundExactly(t, kind, id, rest);
        if i :| FirstWith(rest, i, p) && ReadFile(t, ModulePath(kind, rest[i], id)) == r {
          FirstWithAhead(groups, i, p);
        }
      }
    }
  }

  /** A known group is the only one that is tried. Otherwise the mapped group answers unless its file is missing; then
      the groups are tried in the order of the listing, and only a missing file moves the search on. */
  lemma LookupExactly(t: Tree, kind: Kind, id: string, group: Option<string>, groupMap: map<Ref, string>)
    requires !kind.Dbio?
    ensures var r := Lookup(t, kind, id, group, groupMap);
            var n := Ref(kind, id);
            if group.Some? then r == ReadFile(t, ModulePath(kind, group.value, id))
            else if n in groupMap && ReadFile(t, ModulePath(kind, groupMap[n], id)) != Failed(NotFound) then
              r == ReadFile(t, ModulePath(kind, groupMap[n], id))
            else if ListDir(t, COMPILE_ROOT).Failed? then r == Failed(ListDir(t, COMPILE_ROOT).error)
            else FirstAnswer(t, kind, id, ListDir(t, COMPILE_ROOT).value, r)
  {
    if ListDir(t, COMPILE_ROOT).Success? {
      FirstFoundExactly(t, kind, id, ListDir(t, COMPILE_ROOT).value);
    }
  }

  // ----- Building the group map -----

  function DirOf(kind: Kind, group: string): string
    requires kind.Service? || kind.Biz?
  {
    COMPILE_ROOT + "/" + group + "/src/" + (if kind.Service? then "serviceModule" else "module")
  }

  /** Listing the group's directory fails although it is there. */
  ghost predicate Barred(t: Tree, kind: Kind, group: string)
    requires kind.Service? || kind.Biz?
  {
    ListDir(t, DirOf(kind, group)).Failed? && ListDir(t, DirOf(kind, group)) != Failed(NotFound)
  }

  /** An entry that stands for the ID: its name, or its name with ".c" behind it, unless it begins with a dot. */
  ghost predicate Named(names: seq<string>, id: string) {
    exists name :: name in names && (name == "" || name[0] != '.') &&
                   (name == id + ".c" || (name == id && !EndsWith(name, ".c")))
  }

  ghost predicate Holds(t: Tree, kind: Kind, group: string, id: string)
    requires kind.Service? || kind.Biz?
  {
    var listing := ListDir(t, DirOf(kind, group));
    listing.Success? && Named(listing.value, id)
  }

  lemma EntryExactly(name: string, id: string)
    ensures EntryId(name) == id <==> name == id + ".c" || (name == id && !EndsWith(name, ".c"))
  {
    var long := id + ".c";
    assert long[|long| - 2..] == ".c" && long[..|long| - 2] == id;
    if EndsWith(name, ".c") {
      assert name == name[..|name| - 2] + ".c";
    }
  }

  lemma HoldsIsLists(t: Tree, kind: Kind, group: string, id: string)
    requires kind.Service? || kind.Biz?
    ensures Lists(t, kind, group, id) <==> Holds(t, kind, group, id)
    ensures SourceDir(kind, group) == DirOf(kind, group)
  {
    var listing := ListDir(t, SourceDir(kind, group));
    if listing.Success? {
      forall name { EntryExactly(name, id); }
    }
  }

  ghost function HoldsId(t: Tree, kind: Kind, id: string): string -> bool
    requires kind.Service? || kind.Biz?
  {
    (group: string) => Holds(t, kind, group, id)
  }

  ghost function BarredDir(t: Tree, kind: Kind): string -> bool
    requires kind.Service? || kind.Biz?
  {
    (group: string) => Barred(t, kind, group)
  }

  lemma {:induction false} FirstExactly(t: Tree, kind: Kind, id: string, groups: seq<string>)
    requires kind.Service? || kind.Biz?
    ensures First(t, kind, id, groups).None? <==> forall g :: g in groups ==> !Holds(t, kind, g, id)
    ensures First(t, kind, id, groups).Some? ==>
              exists i :: FirstWith(groups, i, HoldsId(t, kind, id)) && groups[i] == First(t, kind, id, groups).value
  {
    if groups != [] {
      var p, rest := HoldsId(t, kind, id), groups[1..];
      HoldsIsLists(t, kind, groups[0], id);
      FirstExactly(t, kind, id, rest);
      assert groups == [groups[0]] + rest;
      if p(groups[0]) {
        assert FirstWith(groups, 0, p);
      } else if i :| FirstWith(rest, i, p) && rest[i] == First(t, kind, id, groups).value {
        FirstWithAhead(groups, i, p);
      }
    }
  }

  lemma {:induction false} AddGroupsFails(t: Tree, m: map<Ref, string>, kind: Kind, groups: seq<string>)
    requires kind.Service? || kind.Biz?
    ensures AddGroups(t, m, kind, groups).Success? <==> forall g :: g in groups ==> !Barred(t, kind, g)
    ensures AddGroups(t, m, kind, groups).Failed? ==>
              exists i :: FirstWith(groups, i, BarredDir(t, kind)) &&
                          ListDir(t, DirOf(kind, groups[i])) == Failed(AddGroups(t, m, kind, groups).error)
    decreases |groups|
  {
    if groups != [] {
      var p, rest, dir := BarredDir(t, kind), groups[1..], SourceDir(kind, groups[0]);
      assert dir == DirOf(kind, groups[0]) && groups == [groups[0]] + rest;
      if p(groups[0]) {
        assert FirstWith(groups, 0, p);
      } else {
        var next := if ListDir(t, dir).Failed? then m else AddEntries(m, kind, groups[0], ListDir(t, dir).value);
        var r := AddGroups(t, next, kind, rest);
        assert AddGroups(t, m, kind, groups) == r;
        AddGroupsFails(t, next, kind, rest);
        if r.Failed? {
          var i :| FirstWith(rest, i, p) && ListDir(t, DirOf(kind, rest[i])) == Failed(r.error);
          FirstWithAhead(groups, i, p);
        }
      }
    }
  }

  /** Building the map works exactly when the groups can be listed and no group's service or biz directory is there but
      cannot be listed. */
  lemma FreshMapWorksExactly(t: Tree)
    ensures FreshMap(t).Success? <==>
            && ListDir(t, COMPILE_ROOT).Success?
            && forall g :: g in ListDir(t, COMPILE_ROOT).value ==> !Barred(t, Service, g) && !Barred(t, Biz, g)
    ensures FreshMap(t).Failed? ==>
              ListDir(t, COMPILE_ROOT) == Failed(FreshMap(t).error) ||
              exists kind: Kind, g :: (kind.Service? || kind.Biz?) && Barred(t, kind, g) &&
                                      ListDir(t, DirOf(kind, g)) == Failed(FreshMap(t).error)
  {
    if ListDir(t, COMPILE_ROOT).Success? {
      var groups := ListDir(t, COMPILE_ROOT).value;
      AddGroupsFails(t, map[], Service, groups);
      var services := AddGroups(t, map[], Service, groups);
      if services.Success? {
        AddGroupsFails(t, services.value, Biz, groups);
      }
    }
  }

  /** The map has an entry for exactly the services and bizs that some group holds, and it names the first such group in
      the order of the listing. */
  lemma FreshMapExactly(t: Tree, n: Ref)
    requires FreshMap(t).Success?
    ensures var groups, m := ListDir(t, COMPILE_ROOT).value, FreshMap(t).value;
            && (n in m <==> (n.kind.Service? || n.kind.Biz?) && exists g :: g in groups && Holds(t, n.kind, g, n.id))
            && (n in m ==> exists i :: FirstWith(groups, i, HoldsId(t, n.kind, n.id)) && groups[i] == m[n])
  {
    var groups := ListDir(t, COMPILE_ROOT).value;
    if n.kind.Service? || n.kind.Biz? {
      FreshMapIsFirst(t, n.kind, n.id);
      FirstExactly(t, n.kind, n.id, groups);
      assert n == Ref(n.kind, n.id);
    } else {
      GroupsAdded(t, map[], Service, groups, n);
      GroupsAdded(t, AddGroups(t, map[], Service, groups).value, Biz, groups, n);
    }
  }
}
