/** Looking a module source up with and without a group map, and building that map. */
module ModuleLookup {
  import opened Texts
  import opened ProFrame
  import opened ModuleSource

  /** The remote file tree: what reading a path and listing a directory yield. An absent path is not
      found; a present one may still fail, for example because access is denied. */
  datatype Tree = Tree(files: map<string, Result<string>>, dirs: map<string, Result<seq<string>>>)

  function ReadFile(t: Tree, path: string): Result<string> {
    if path in t.files then t.files[path] else Failed(NotFound)
  }

  function ListDir(t: Tree, path: string): Result<seq<string>> {
    if path in t.dirs then t.dirs[path] else Failed(NotFound)
  }

  function At(t: Tree, kind: Kind, group: string, id: string): Result<string>
    requires !kind.Dbio?
  {
    ReadFile(t, ModulePath(kind, group, id))
  }

  /** Reading the group candidates one after the other; only "not found" moves on. */
  function FirstFound(t: Tree, kind: Kind, id: string, groups: seq<string>): Result<string>
    requires !kind.Dbio?
  {
    if groups == [] then Failed(NotFound)
    else if At(t, kind, groups[0], id) == Failed(NotFound) then FirstFound(t, kind, id, groups[1..])
    else At(t, kind, groups[0], id)
  }

  /** The plain sequential search. */
  function Search(t: Tree, kind: Kind, id: string): Result<string>
    requires !kind.Dbio?
  {
    match ListDir(t, COMPILE_ROOT)
    case Failed(e) => Failed(e)
    case Success(groups) => FirstFound(t, kind, id, groups)
  }

  /** The lookup: a known group, else the mapped group unless its file is not found, else the search. */
  function Lookup(t: Tree, kind: Kind, id: string, group: Option<string>, groupMap: map<Ref, string>): Result<string>
    requires !kind.Dbio?
  {
    if group.Some? then At(t, kind, group.value, id)
    else
      var n := Ref(kind, id);
      if n in groupMap && At(t, kind, groupMap[n], id) != Failed(NotFound) then At(t, kind, groupMap[n], id)
      else Search(t, kind, id)
  }

  method ReadModuleSource(t: Tree, kind: Kind, id: string, group: Option<string>, groupMap: map<Ref, string>)
    returns (result: Result<string>)
    requires !kind.Dbio?
    ensures result == Lookup(t, kind, id, group, groupMap)
  {
    if group.Some? {
      return ReadFile(t, ModulePath(kind, group.value, id));
    }
    if Ref(kind, id) in groupMap {
      result := ReadFile(t, ModulePath(kind, groupMap[Ref(kind, id)], id));
      if result != Failed(NotFound) {
        return;
      }
    }
    var rel := RelPath(kind, id);
    var listing := ListDir(t, COMPILE_ROOT);
    if listing.Failed? {
      return Failed(listing.error);
    }
    var groups := listing.value;
    assert groups[0..] == groups;
    for i := 0 to |groups|
      invariant FirstFound(t, kind, id, groups) == FirstFound(t, kind, id, groups[i..])
    {
      result := ReadFile(t, COMPILE_ROOT + "/" + groups[i] + "/src/" + rel);
      assert groups[i..][0] == groups[i] && groups[i..][1..] == groups[i + 1..];
      if result != Failed(NotFound) {
        return;
      }
    }
    result := Failed(NotFound);
  }

  // ----- Any map -----

  /** A group map, however stale, cannot change any lookup exactly when no group holds something else
      than what the search finds. */
  lemma AnyMapIsSafe(t: Tree, kind: Kind, id: string)
    requires !kind.Dbio?
    ensures (forall m: map<Ref, string> :: Lookup(t, kind, id, None, m) == Search(t, kind, id)) <==>
            (forall g :: At(t, kind, g, id) == Failed(NotFound) || At(t, kind, g, id) == Search(t, kind, id))
  {
    if forall m: map<Ref, string> :: Lookup(t, kind, id, None, m) == Search(t, kind, id) {
      forall g ensures At(t, kind, g, id) == Failed(NotFound) || At(t, kind, g, id) == Search(t, kind, id) {
        var m: map<Ref, string> := map[Ref(kind, id) := g];
        assert Lookup(t, kind, id, None, m) == Search(t, kind, id);
      }
    }
  }

  lemma {:induction false} FoundInItsGroup(t: Tree, kind: Kind, id: string, groups: seq<string>, g: string)
    requires !kind.Dbio? && g in groups
    requires forall h :: At(t, kind, h, id) != Failed(NotFound) ==> h == g
    ensures FirstFound(t, kind, id, groups) == At(t, kind, g, id)
  {
    if groups[0] != g {
      FoundInItsGroup(t, kind, id, groups[1..], g);
    } else if At(t, kind, g, id) == Failed(NotFound) {
      NothingAnywhere(t, kind, id, groups);
    }
  }

  lemma {:induction false} NothingAnywhere(t: Tree, kind: Kind, id: string, groups: seq<string>)
    requires !kind.Dbio? && forall h :: h in groups ==> At(t, kind, h, id) == Failed(NotFound)
    ensures FirstFound(t, kind, id, groups) == Failed(NotFound)
  {
    if groups != [] {
      NothingAnywhere(t, kind, id, groups[1..]);
    }
  }

  /** If at most one group holds the module, and it is a listed one, every map is safe. */
  lemma UniqueModuleIsSafe(t: Tree, kind: Kind, id: string, m: map<Ref, string>)
    requires !kind.Dbio?
    requires forall g, h :: At(t, kind, g, id) != Failed(NotFound) && At(t, kind, h, id) != Failed(NotFound) ==> g == h
    requires forall g :: At(t, kind, g, id) != Failed(NotFound) ==>
               ListDir(t, COMPILE_ROOT).Success? && g in ListDir(t, COMPILE_ROOT).value
    ensures Lookup(t, kind, id, None, m) == Search(t, kind, id)
  {
    var n := Ref(kind, id);
    if n in m && At(t, kind, m[n], id) != Failed(NotFound) {
      FoundInItsGroup(t, kind, id, ListDir(t, COMPILE_ROOT).value, m[n]);
    }
  }

  // ----- The freshly built map -----

  function SourceDir(kind: Kind, group: string): string
    requires !kind.Dbio?
  {
    COMPILE_ROOT + "/" + group + "/src/" + SubDir(kind)
  }

  predicate Hidden(name: string) {
    name != "" && name[0] == '.'
  }

  /** The ID a directory entry stands for. */
  function EntryId(name: string): string {
    if EndsWith(name, ".c") then name[..|name| - 2] else name
  }

  function AddDefault(m: map<Ref, string>, n: Ref, group: string): map<Ref, string> {
    if n in m then m else m[n := group]
  }

  function AddEntries(m: map<Ref, string>, kind: Kind, group: string, names: seq<string>): map<Ref, string> {
    if names == [] then m
    else
      var front, last := AddEntries(m, kind, group, names[..|names| - 1]), names[|names| - 1];
      if Hidden(last) then front else AddDefault(front, Ref(kind, EntryId(last)), group)
  }

  function AddGroups(t: Tree, m: map<Ref, string>, kind: Kind, groups: seq<string>): Result<map<Ref, string>>
    requires !kind.Dbio?
    decreases |groups|
  {
    if groups == [] then Success(m)
    else
      match ListDir(t, SourceDir(kind, groups[0]))
      case Failed(NotFound) => AddGroups(t, m, kind, groups[1..])
      case Failed(e) => Failed(e)
      case Success(names) => AddGroups(t, AddEntries(m, kind, groups[0], names), kind, groups[1..])
  }

  function FreshMap(t: Tree): Result<map<Ref, string>> {
    match ListDir(t, COMPILE_ROOT)
    case Failed(e) => Failed(e)
    case Success(groups) =>
      match AddGroups(t, map[], Service, groups)
      case Failed(e) => Failed(e)
      case Success(m) => AddGroups(t, m, Biz, groups)
  }

  method BuildGroupMap(t: Tree) returns (result: Result<map<Ref, string>>)
    ensures result == FreshMap(t)
  {
    var listing := ListDir(t, COMPILE_ROOT);
    if listing.Failed? {
      return Failed(listing.error);
    }
    result := WalkGroups(t, map[], Service, listing.value);
    if result.Failed? {
      return;
    }
    result := WalkGroups(t, result.value, Biz, listing.value);
  }

  /** The middle loop: one kind, every group. */
  method WalkGroups(t: Tree, before: map<Ref, string>, kind: Kind, groups: seq<string>)
    returns (result: Result<map<Ref, string>>)
    requires !kind.Dbio?
    ensures result == AddGroups(t, before, kind, groups)
  {
    var groupMap := before;
    assert groups[0..] == groups;
    for i := 0 to |groups|
      invariant AddGroups(t, before, kind, groups) == AddGroups(t, groupMap, kind, groups[i..])
    {
      assert groups[i..][0] == groups[i] && groups[i..][1..] == groups[i + 1..];
      var entries := ListDir(t, SourceDir(kind, groups[i]));
      if entries == Failed(NotFound) {
        continue;
      }
      if entries.Failed? {
        return Failed(entries.error);
      }
      groupMap := WalkEntries(groupMap, kind, groups[i], entries.value);
    }
    result := Success(groupMap);
  }

  /** The inner loop: every entry of one directory. */
  method WalkEntries(before: map<Ref, string>, kind: Kind, group: string, names: seq<string>)
    returns (groupMap: map<Ref, string>)
    ensures groupMap == AddEntries(before, kind, group, names)
  {
    groupMap := before;
    for i := 0 to |names|
      invariant groupMap == AddEntries(before, kind, group, names[..i])
    {
      assert names[..i + 1][..i] == names[..i];
      if Hidden(names[i]) {
        continue;
      }
      var id := if EndsWith(names[i], ".c") then names[i][..|names[i]| - 2] else names[i];
      groupMap := AddDefault(groupMap, Ref(kind, id), group);
    }
    assert names[..|names|] == names;
  }

  /** Some entry stands for `id`. */
  ghost predicate Stands(names: seq<string>, id: string) {
    exists name :: name in names && !Hidden(name) && EntryId(name) == id
  }

  /** Group `g` lists an entry that stands for `id`. */
  ghost predicate Lists(t: Tree, kind: Kind, g: string, id: string)
    requires !kind.Dbio?
  {
    var listing := ListDir(t, SourceDir(kind, g));
    listing.Success? && Stands(listing.value, id)
  }

  lemma StandsSnoc(names: seq<string>, name: string, id: string)
    ensures Stands(names + [name], id) <==> Stands(names, id) || (!Hidden(name) && EntryId(name) == id)
  {
    assert forall other :: other in names + [name] <==> other in names || other == name;
  }

  lemma {:induction false} EntriesAdded(m: map<Ref, string>, kind: Kind, group: string, names: seq<string>, n: Ref)
    ensures var a := AddEntries(m, kind, group, names);
            var here := n.kind == kind && Stands(names, n.id);
            && (n in m ==> n in a && a[n] == m[n])
            && (n !in m ==> (n in a <==> here) && (n in a ==> a[n] == group))
  {
    if names != [] {
      var front, last := names[..|names| - 1], names[|names| - 1];
      assert names == front + [last];
      EntriesAdded(m, kind, group, front, n);
      StandsSnoc(front, last, n.id);
    }
  }

  /** A key of the map built from `groups` names a group that lists it, and none before it does; a
      key that some group lists is in the map. */
  lemma {:induction false} GroupsAdded(t: Tree, m: map<Ref, string>, kind: Kind, groups: seq<string>, n: Ref)
    requires !kind.Dbio? && AddGroups(t, m, kind, groups).Success?
    ensures var a := AddGroups(t, m, kind, groups).value;
            && (n in m ==> n in a && a[n] == m[n])
            && (n !in m && n.kind != kind ==> n !in a)
            && (n !in m && n.kind == kind ==> First(t, kind, n.id, groups) == if n in a then Some(a[n]) else None)
    decreases |groups|
  {
    if groups != [] {
      var listing := ListDir(t, SourceDir(kind, groups[0]));
      if listing.Success? {
        EntriesAdded(m, kind, groups[0], listing.value, n);
        GroupsAdded(t, AddEntries(m, kind, groups[0], listing.value), kind, groups[1..], n);
      } else {
        GroupsAdded(t, m, kind, groups[1..], n);
      }
    }
  }

  /** The first group that lists an entry for `id`. */
  ghost function First(t: Tree, kind: Kind, id: string, groups: seq<string>): Option<string>
    requires !kind.Dbio?
  {
    if groups == [] then None
    else if Lists(t, kind, groups[0], id) then Some(groups[0])
    else First(t, kind, id, groups[1..])
  }

  /** The name under which a module's own directory lists it. */
  function EntryName(kind: Kind, id: string): string {
    if kind.Service? then id else id + ".c"
  }

  /** A file that is there, readable or not, is in its directory's listing. */
  ghost predicate ListingsComplete(t: Tree, kind: Kind, id: string, groups: seq<string>)
    requires !kind.Dbio?
  {
    forall g :: g in groups && At(t, kind, g, id) != Failed(NotFound) ==>
                  && ListDir(t, SourceDir(kind, g)).Success?
                  && EntryName(kind, id) in ListDir(t, SourceDir(kind, g)).value
  }

  /** IDs whose directory entry stands for the ID itself. */
  predicate PlainId(kind: Kind, id: string) {
    if kind.Service? then !EndsWith(id, ".c") else id != ""
  }

  lemma EntryStandsForId(kind: Kind, id: string)
    requires PlainId(kind, id)
    ensures EntryId(EntryName(kind, id)) == id && Hidden(EntryName(kind, id)) == Hidden(id)
  {
    if !kind.Service? {
      var name := id + ".c";
      assert name[|name| - 2..] == ".c" && name[..|name| - 2] == id;
    }
  }

  /** Up to the mapped group nothing is found, so the search ends where the map points. */
  lemma {:induction false} MapPointsWhereSearchEnds(t: Tree, kind: Kind, id: string, groups: seq<string>, g: string)
    requires !kind.Dbio? && PlainId(kind, id) && !Hidden(id) && ListingsComplete(t, kind, id, groups)
    requires First(t, kind, id, groups) == Some(g) && At(t, kind, g, id) != Failed(NotFound)
    ensures FirstFound(t, kind, id, groups) == At(t, kind, g, id)
  {
    if !Lists(t, kind, groups[0], id) {
      assert At(t, kind, groups[0], id) == Failed(NotFound) by {
        EntryStandsForId(kind, id);
      }
      MapPointsWhereSearchEnds(t, kind, id, groups[1..], g);
    }
  }

  lemma {:induction false} HiddenIsNeverListed(t: Tree, kind: Kind, id: string, groups: seq<string>)
    requires !kind.Dbio? && Hidden(id)
    ensures First(t, kind, id, groups) == None
  {
    if groups != [] {
      HiddenIsNeverListed(t, kind, id, groups[1..]);
    }
  }

  /** A freshly built map agrees with the search, duplicates across groups, hidden entries and listed
      but missing files included, for IDs that the builder does not shorten. */
  lemma FreshMapAgrees(t: Tree, kind: Kind, id: string)
    requires !kind.Dbio? && PlainId(kind, id)
    requires FreshMap(t).Success?
    requires ListingsComplete(t, kind, id, ListDir(t, COMPILE_ROOT).value)
    ensures Lookup(t, kind, id, None, FreshMap(t).value) == Search(t, kind, id)
  {
    var n := Ref(kind, id);
    var groups := ListDir(t, COMPILE_ROOT).value;
    var services := AddGroups(t, map[], Service, groups).value;
    GroupsAdded(t, map[], Service, groups, n);
    GroupsAdded(t, services, Biz, groups, n);
    var m := FreshMap(t).value;
    if n in m && At(t, kind, m[n], id) != Failed(NotFound) {
      if Hidden(id) {
        HiddenIsNeverListed(t, kind, id, groups);
      } else {
        MapPointsWhereSearchEnds(t, kind, id, groups, m[n]);
      }
    }
  }

  // ----- When a freshly built map agrees -----

  /** What the search finds in the groups that it tries before the first one that lists the module. */
  ghost function FoundEarlier(t: Tree, kind: Kind, id: string, groups: seq<string>): Result<string>
    requires !kind.Dbio?
  {
    if groups == [] || Lists(t, kind, groups[0], id) then Failed(NotFound)
    else if At(t, kind, groups[0], id) != Failed(NotFound) then At(t, kind, groups[0], id)
    else FoundEarlier(t, kind, id, groups[1..])
  }

  lemma {:induction false} SearchIsEarlierOrListed(t: Tree, kind: Kind, id: string, groups: seq<string>, g: string)
    requires !kind.Dbio? && First(t, kind, id, groups) == Some(g) && At(t, kind, g, id) != Failed(NotFound)
    ensures FirstFound(t, kind, id, groups) ==
            if FoundEarlier(t, kind, id, groups) == Failed(NotFound) then At(t, kind, g, id)
            else FoundEarlier(t, kind, id, groups)
  {
    if !Lists(t, kind, groups[0], id) && At(t, kind, groups[0], id) == Failed(NotFound) {
      SearchIsEarlierOrListed(t, kind, id, groups[1..], g);
    }
  }

  lemma FreshMapIsFirst(t: Tree, kind: Kind, id: string)
    requires (kind.Service? || kind.Biz?) && FreshMap(t).Success?
    ensures First(t, kind, id, ListDir(t, COMPILE_ROOT).value) ==
            if Ref(kind, id) in FreshMap(t).value then Some(FreshMap(t).value[Ref(kind, id)]) else None
  {
    var groups := ListDir(t, COMPILE_ROOT).value;
    GroupsAdded(t, map[], Service, groups, Ref(kind, id));
    GroupsAdded(t, AddGroups(t, map[], Service, groups).value, Biz, groups, Ref(kind, id));
  }

  /** For every service and biz ID: the freshly built map agrees with the search exactly when the group it names does
      not hold the module, or no group before it holds something else. */
  lemma FreshMapAgreesExactly(t: Tree, kind: Kind, id: string)
    requires (kind.Service? || kind.Biz?) && FreshMap(t).Success?
    ensures var groups := ListDir(t, COMPILE_ROOT).value;
            var g := First(t, kind, id, groups);
            Lookup(t, kind, id, None, FreshMap(t).value) == Search(t, kind, id) <==>
            (g.None? || At(t, kind, g.value, id) == Failed(NotFound)
             || FoundEarlier(t, kind, id, groups) == Failed(NotFound)
             || FoundEarlier(t, kind, id, groups) == At(t, kind, g.value, id))
  {
    var groups := ListDir(t, COMPILE_ROOT).value;
    var g := First(t, kind, id, groups);
    FreshMapIsFirst(t, kind, id);
    if g.Some? && At(t, kind, g.value, id) != Failed(NotFound) {
      SearchIsEarlierOrListed(t, kind, id, groups, g.value);
    }
  }

  /** Service "X.c" lies in groups A and B; B also has a directory "X.c.c". */
  function Dotted(): Tree {
    Tree(map[ModulePath(Service, "A", "X.c") := Success("a"), ModulePath(Service, "B", "X.c") := Success("b")],
         map[COMPILE_ROOT := Success(["A", "B"]), SourceDir(Service, "A") := Success(["X.c"]),
             SourceDir(Service, "B") := Success(["X.c", "X.c.c"])])
  }

  lemma PathsApart()
    ensures ModulePath(Service, "A", "X.c") != ModulePath(Service, "B", "X.c")
    ensures SourceDir(Service, "A") != SourceDir(Service, "B")
    ensures forall kind: Kind, g :: !kind.Dbio? ==> SourceDir(kind, g) != COMPILE_ROOT
  {
    var k := |COMPILE_ROOT| + 1;
    assert ModulePath(Service, "A", "X.c")[k] == 'A' && ModulePath(Service, "B", "X.c")[k] == 'B';
    assert SourceDir(Service, "A")[k] == 'A' && SourceDir(Service, "B")[k] == 'B';
    forall kind: Kind, g | !kind.Dbio? ensures |SourceDir(kind, g)| > |COMPILE_ROOT| {
    }
  }

  lemma BizDirsApart(g: string, h: string)
    requires |g| == |h| == 1
    ensures SourceDir(Biz, g) != SourceDir(Service, h)
  {
    var k := |COMPILE_ROOT| + 7;
    assert |SourceDir(Biz, g)| == k + 6 && |SourceDir(Service, h)| == k + 13;
  }

  lemma DottedListings()
    ensures var t := Dotted();
            && ListDir(t, COMPILE_ROOT) == Success(["A", "B"])
            && ListDir(t, SourceDir(Service, "A")) == Success(["X.c"])
            && ListDir(t, SourceDir(Service, "B")) == Success(["X.c", "X.c.c"])
            && ListDir(t, SourceDir(Biz, "A")) == Failed(NotFound)
            && ListDir(t, SourceDir(Biz, "B")) == Failed(NotFound)
  {
    PathsApart();
    BizDirsApart("A", "A");
    BizDirsApart("A", "B");
    BizDirsApart("B", "A");
    BizDirsApart("B", "B");
  }

  /** What the entries of A and B are taken for. */
  function DottedMap(): map<Ref, string> {
    map[Ref(Service, "X") := "A", Ref(Service, "X.c") := "B"]
  }

  lemma DottedEntries()
    ensures AddEntries(map[], Service, "A", ["X.c"]) == map[Ref(Service, "X") := "A"]
    ensures AddEntries(map[Ref(Service, "X") := "A"], Service, "B", ["X.c", "X.c.c"]) == DottedMap()
  {
    assert EntryId("X.c") == "X" && EntryId("X.c.c") == "X.c";
    assert ["X.c"][..0] == [] && ["X.c", "X.c.c"][..1] == ["X.c"];
    assert AddEntries(map[Ref(Service, "X") := "A"], Service, "B", ["X.c"]) == map[Ref(Service, "X") := "A"];
  }

  lemma DottedFreshMap()
    ensures FreshMap(Dotted()) == Success(DottedMap())
  {
    var t := Dotted();
    DottedListings();
    DottedEntries();
    assert ["A", "B"][1..] == ["B"] && ["B"][1..] == [];
    assert AddGroups(t, map[Ref(Service, "X") := "A"], Service, ["B"]) == Success(DottedMap());
    assert AddGroups(t, DottedMap(), Biz, ["B"]) == Success(DottedMap());
  }

  /** The builder takes a directory "X.c" for service "X", and "X.c.c" for "X.c": the search finds the first "X.c", the
      freshly built map leads past it. */
  lemma DottedServiceExample()
    ensures FreshMap(Dotted()) == Success(DottedMap())
    ensures Lookup(Dotted(), Service, "X.c", None, DottedMap()) == Success("b")
    ensures Search(Dotted(), Service, "X.c") == Success("a")
  {
    DottedFreshMap();
    PathsApart();
  }
}
