/** The ID scheme shared by every tool: four kinds of module and the failures a lookup can report. */
module ProFrame {

  datatype Kind = Dbio | Service | Batch | Biz

  /** A call reference: the kind is known from the call macro, the ID from its argument. */
  datatype Ref = Ref(kind: Kind, id: string)

  datatype Failure = NotFound | AccessError | UnknownSqlType | ParseFailure

  datatype Result<+T> = Success(value: T) | Failed(error: Failure)

  function Ids(refs: seq<Ref>): (s: set<string>) {
    set r | r in refs :: r.id
  }

  lemma IdsOfConcat(a: seq<Ref>, b: seq<Ref>)
    ensures Ids(a + b) == Ids(a) + Ids(b)
  {
    assert forall r :: r in a + b <==> r in a || r in b;
  }

  ghost predicate DistinctIds(refs: seq<Ref>) {
    forall i, j :: 0 <= i < j < |refs| ==> refs[i].id != refs[j].id
  }

  lemma IdBelongsToARef(refs: seq<Ref>, id: string) returns (r: Ref)
    requires id in Ids(refs)
    ensures r in refs && r.id == id
  {
    r :| r in refs && r.id == id;
  }
}
