/** One ID under two kinds: the extraction drops a DBIO that it reaches. */
module ExtractionExample {
  import opened Texts
  import opened ProFrame
  import opened Extraction
  import opened BatchExtraction

  const ENTRY := Ref(Service, "S")
  const BIZ := Ref(Biz, "A")
  const DBIO := Ref(Dbio, "A")

  /** A service that calls biz A, which has no source, and then selects from DBIO A, which has one table. */
  function Clashing(): Corpus {
    Corpus(map[(ENTRY, "G") := Found([BIZ, DBIO])], map[], map["A" := Success({"T"})])
  }

  function Whole(): Request {
    Request(Clashing(), {}, {}, Service, Some("G"))
  }

  lemma StartsInUniverse()
    ensures Ids([BIZ, DBIO]) <= Universe(Clashing())
  {
    ReadStaysInUniverse(Clashing(), ENTRY, Some("G"));
  }

  /** The DBIO is reached and can be extracted, and the run does not list it. */
  lemma ClashingKindsExample()
    ensures Reached(Clashing(), {}, ENTRY, [BIZ, DBIO], DBIO) && ReadableDbio(Clashing(), {}, DBIO)
    ensures Outcome(Whole(), "S").Success? && "A" !in Outcome(Whole(), "S").value.dbios
  {
    StartsInUniverse();
    DbioIsReached();
    var order := Preorder(Clashing(), {}, [BIZ, DBIO], {"S"});
    BizComesFirst(order);
    DbioMembers(Clashing(), {}, order);
    EntryOutcome(order);
  }

  lemma DbioIsReached()
    ensures Reached(Clashing(), {}, ENTRY, [BIZ, DBIO], DBIO) && ReadableDbio(Clashing(), {}, DBIO)
  {
    assert Walk(Clashing(), {}, ENTRY, [BIZ, DBIO], [DBIO]);
  }

  lemma EntryOutcome(order: seq<Ref>)
    requires Ids([BIZ, DBIO]) <= Universe(Clashing()) && order == Preorder(Clashing(), {}, [BIZ, DBIO], {"S"})
    ensures Outcome(Whole(), "S").Success? && Outcome(Whole(), "S").value.dbios == Sum(Clashing(), {}, order).dbios
  {
    assert Read(Clashing(), ENTRY, Some("G")) == Found([BIZ, DBIO]);
    assert Visit(ENTRY, Found([BIZ, DBIO]), Sum(Clashing(), {}, order)).dbios == Sum(Clashing(), {}, order).dbios;
  }

  lemma BizComesFirst(order: seq<Ref>)
    requires Ids([BIZ, DBIO]) <= Universe(Clashing()) && order == Preorder(Clashing(), {}, [BIZ, DBIO], {"S"})
    ensures DBIO !in order
  {
    assert BIZ == order[0];
  }
}
