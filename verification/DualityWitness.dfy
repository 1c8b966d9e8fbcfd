/** An orderly world: the hypotheses of the duality can be met, by a biz whose source selects from one DBIO. */
module DualityWitness {
  import opened Texts
  import opened ProFrame
  import opened ModuleSource
  import opened ModuleLookup
  import opened ReferenceScanner
  import opened Extraction
  import opened Duality
  import CommentStripper

  const GROUP := "G"
  const ENTRY := Ref(Biz, "X")
  const DBIO := Ref(Dbio, "D")

  function Path(): string {
    ModulePath(Biz, GROUP, "X")
  }

  const CALL := "pfmDbioSelect(\"D\""
  const TEXT := CALL + ");"

  /** A hit wherever the text holds the call. */
  function CallsAt(text: string, at: nat): seq<Hit> {
    if text == "" then []
    else (if StartsWith(text, CALL) then [Hit(at, "D")] else []) + CallsAt(text[1..], at + 1)
  }

  function CallMatcher(): string -> seq<Hit> {
    (text: string) => CallsAt(text, 0)
  }

  function Always(path: string): (string, string) -> Result<seq<string>> {
    (word: string, root: string) => Success([path])
  }

  function Example(): World {
    World(Tree(map[Path() := Success(TEXT)], map[COMPILE_ROOT := Success([GROUP])]),
          Patterns(CallMatcher(), NoBatches(), NoBatches(), NoBatches()),
          Always(Path()), map["D" := Success({"T"})], map[])
  }

  lemma {:induction false} CallsAreOnD(text: string, at: nat)
    ensures forall hit :: hit in CallsAt(text, at) ==> hit.id == "D"
  {
    if text != "" {
      CallsAreOnD(text[1..], at + 1);
    }
  }

  lemma {:induction false} WithoutSlashAllIsKept(m: CommentStripper.Mode, s: string)
    requires '/' !in s && (m.Normal? || m.SingleQuoted? || m.DoubleQuoted?)
    ensures CommentStripper.Scan(m, s).text == s
    decreases |s|
  {
    if s != "" {
      var v := OneKept(m, s);
      var rest := s[v.taken..];
      WithoutSlashAllIsKept(v.mode, rest);
      assert s == s[..v.taken] + rest;
    }
  }

  lemma OneKept(m: CommentStripper.Mode, s: string) returns (v: CommentStripper.Move)
    requires s != "" && s[0] != '/' && (m.Normal? || m.SingleQuoted? || m.DoubleQuoted?)
    ensures v == CommentStripper.Next(m, s) && v.kept == s[..v.taken]
    ensures v.mode.Normal? || v.mode.SingleQuoted? || v.mode.DoubleQuoted?
  {
    v := CommentStripper.Next(m, s);
    assert s[..1] == [s[0]];
  }

  lemma OnlyReference(r: Ref)
    ensures r in ModuleRefs(Example().patterns, TEXT) <==> r == DBIO
  {
    var p := Example().patterns;
    WithoutSlashAllIsKept(CommentStripper.Normal, TEXT);
    RefsAreTheMatches(p, TEXT, r);
    CallsAreOnD(TEXT, 0);
    assert TEXT[..|CALL|] == CALL;
    assert CallsAt(TEXT, 0)[0] == Hit(0, "D");
    assert Matches(p, TEXT) == Tagged(Dbio, CallsAt(TEXT, 0));
    assert Matches(p, TEXT)[0] == Match(0, DBIO);
  }

  lemma PathParses()
    ensures ParseModulePath(Path()) == Some(Located(Biz, GROUP, "X"))
  {
    ParseUndoesPath(Biz, GROUP, "X");
  }

  function Tail(kind: Kind, id: string): string
    requires !kind.Dbio?
  {
    "/src/" + (SubDir(kind) + "/" + (Body(kind, id) + ".c"))
  }

  /** No other kind, group and ID have that path. */
  lemma PathIsItsOwn(kind: Kind, group: string, id: string)
    requires !kind.Dbio? && ModulePath(kind, group, id) == Path()
    ensures kind == Biz && group == GROUP && id == "X"
  {
    PathPieces(kind, group, id);
    PathPieces(Biz, GROUP, "X");
    assert group + Tail(kind, id) == GROUP + Tail(Biz, "X");
    OwnTail();
    GroupIsItsOwn(group, Tail(kind, id));
    RestIsItsOwn(kind, id, Tail(kind, id));
  }

  lemma OwnTail()
    ensures Tail(Biz, "X") == "/src/module/X.c"
  {
  }

  lemma GroupIsItsOwn(group: string, tail: string)
    requires |tail| > 1 && tail[0] == '/' && tail[1] == 's' && group + tail == GROUP + "/src/module/X.c"
    ensures group == GROUP && tail == "/src/module/X.c"
  {
    var whole := group + tail;
    assert whole[|group|] == '/' && whole[|group| + 1] == 's';
    SlashThenS(|group|, whole);
    assert group == whole[..1] && tail == whole[1..];
  }

  lemma SlashThenS(k: nat, s: string)
    requires s == "G/src/module/X.c" && k + 1 < |s| && s[k] == '/' && s[k + 1] == 's'
    ensures k == 1
  {
  }

  lemma RestIsItsOwn(kind: Kind, id: string, tail: string)
    requires !kind.Dbio? && tail == Tail(kind, id)
    requires tail == "/src/module/X.c"
    ensures kind == Biz && id == "X"
  {
    assert tail[5] == SubDir(kind)[0];
    assert kind == Biz;
    assert tail[12..] == id + ".c";
    assert tail[12..] == "X.c";
    assert id == tail[12..][..|id|];
  }

  lemma OnlySource(path: string, n: Ref, g: string)
    ensures IsSource(Example(), path, n, g) <==> path == Path() && n == ENTRY && g == GROUP
  {
    PathParses();
  }

  lemma OneFile(w: World, path: string, r: Ref)
    requires forall other :: other in w.tree.files <==> other == path
    ensures r in Mentioned(w) <==> r in RefsIn(w, path)
  {
  }

  lemma OnlyRefs()
    ensures RefsIn(Example(), Path()) == ModuleRefs(Example().patterns, TEXT)
  {
  }

  lemma OnlyMentioned(r: Ref)
    ensures r in Mentioned(Example()) <==> r == DBIO
  {
    OneFile(Example(), Path(), r);
    OnlyRefs();
    OnlyReference(r);
  }

  lemma OnlyHolder(n: Ref, g: string)
    ensures Holds(Example(), n, g) ==> g == GROUP
  {
    if Holds(Example(), n, g) {
      PathIsItsOwn(n.kind, g, n.id);
    }
  }

  lemma ExampleIsPlaced()
    ensures Placed(Example())
  {
    forall path, n, g | IsSource(Example(), path, n, g)
      ensures path == ModulePath(n.kind, g, n.id) && Example().tree.files[path].Success?
    {
      OnlySource(path, n, g);
    }
    forall n: Ref, g, h | Holds(Example(), n, g) && Holds(Example(), n, h) ensures g == h && Groups(Example(), g) {
      OnlyHolder(n, g);
      OnlyHolder(n, h);
    }
  }

  lemma OneLetterIsTidy(c: char)
    requires !IsSpace(c) && c != '/' && c != '\n'
    ensures Tidy([c])
  {
    assert StripLeft([c]) == [c] && StripRight([c]) == [c];
  }

  lemma ExampleIsTyped()
    ensures Typed(Example())
  {
    forall n | Known(Example(), n) ensures n == DBIO || n == ENTRY {
      OnlyMentioned(n);
      if path, g :| IsSource(Example(), path, n, g) {
        OnlySource(path, n, g);
      }
    }
    OneLetterIsTidy('D');
    OneLetterIsTidy('X');
    forall n | n in Mentioned(Example()) ensures !n.kind.Service? {
      OnlyMentioned(n);
    }
  }

  lemma ExampleIsCovered()
    ensures Covered(Example())
  {
    forall path, m, g, n | IsSource(Example(), path, m, g) && n in RefsIn(Example(), path)
      ensures path in Example().grep(n.id, COMPILE_ROOT).value
    {
      OnlySource(path, m, g);
    }
  }

  /** In the example all hypotheses of the duality hold, and the biz refers to the DBIO. */
  lemma DualityIsNotVacuous()
    ensures Orderly(Example()) && IsSource(Example(), Path(), ENTRY, GROUP)
    ensures "D" in Example().dbios && Example().dbios["D"].Success?
    ensures Edge(Example(), ENTRY, DBIO)
  {
    ExampleIsPlaced();
    ExampleIsTyped();
    ExampleIsCovered();
    OnlySource(Path(), ENTRY, GROUP);
    OnlyRefs();
    OnlyReference(DBIO);
  }
}
