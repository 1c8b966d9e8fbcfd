/** The source popup: opens, replies that may come late, and a cache that a new extraction clears. */
module SourcePopup {
  import opened Texts
  import opened ProFrame

  datatype Entry = Entry(text: string, truncated: bool)

  datatype Body = Blank | Loading | NothingToShow | Content(entry: Entry) | Error(head: string, detail: string)

  /** What comes of a request. */
  datatype Reply = Ok(entry: Entry)
                 | Refused(status: nat, detail: string)
                 | Unreadable
                 | Broken(message: string)

  /** What is on the screen, and what the page remembers. */
  datatype Popup = Popup(
    title: string, visible: bool, body: Body, lastText: string, cache: map<string, Entry>, reqId: nat)

  const NEW_POPUP := Popup("", false, Blank, "", map[], 0)

  function TypeName(k: Kind): string {
    match k case Dbio => "dbio" case Service => "service" case Batch => "batch" case Biz => "biz"
  }

  function Label(k: Kind): string {
    match k case Dbio => "DBIO" case Service => "Service" case Batch => "Batch" case Biz => "Biz"
  }

  function Title(n: Ref): string {
    "[" + Label(n.kind) + "] " + n.id
  }

  function Key(n: Ref): string {
    TypeName(n.kind) + ":" + n.id
  }

  function ErrorHead(status: nat): string {
    match status
    case 400 => "요청 오류"
    case 404 => "소스를 찾을 수 없음"
    case 503 => "원격 서버 연결 실패"
    case _ => "조회 실패"
  }

  // ----- The steps -----

  function Rendered(p: Popup, body: Body): Popup {
    p.(body := body, lastText := if body.Content? then body.entry.text else "")
  }

  function ContentOf(e: Entry): Body {
    if e.text == "" then NothingToShow else Content(e)
  }

  function Opened(p: Popup, n: Ref): Popup {
    var q := p.(title := Title(n), visible := true, reqId := p.reqId + 1);
    Rendered(q, if Key(n) in p.cache then ContentOf(p.cache[Key(n)]) else Loading)
  }

  /** A reply to request `id`, which was made for `n`. */
  function Replied(p: Popup, id: nat, n: Ref, reply: Reply): Popup {
    if id != p.reqId then p
    else
      match reply
      case Ok(e) => Rendered(p.(cache := p.cache[Key(n) := e]), ContentOf(e))
      case Refused(status, detail) => Rendered(p, Error(ErrorHead(status), Strip(detail)))
      case Unreadable => Rendered(p, Error("조회 실패", "서버 응답을 해석할 수 없습니다."))
      case Broken(message) => Rendered(p, Error("소스 조회 요청 실패", message))
  }

  class SourceModal {
    var title: string
    var visible: bool
    var body: Body
    var lastText: string
    var cache: map<string, Entry>
    var reqId: nat

    function View(): Popup
      reads this
    {
      Popup(title, visible, body, lastText, cache, reqId)
    }

    constructor ()
      ensures View() == NEW_POPUP
    {
      title, visible, body, lastText, cache, reqId := "", false, Blank, "", map[], 0;
    }

    method RenderStatus(status: Body)
      requires !status.Content?
      modifies `lastText, `body
      ensures View() == Rendered(old(View()), status)
    {
      lastText := "";
      body := status;
    }

    method RenderContent(e: Entry)
      modifies `lastText, `body
      ensures View() == Rendered(old(View()), ContentOf(e))
    {
      lastText := e.text;
      if e.text == "" {
        RenderStatus(NothingToShow);
        return;
      }
      body := Content(e);
    }

    /** Opening a module; a module that is not cached starts a request, which gets the returned number. */
    method Open(n: Ref) returns (request: Option<nat>)
      modifies this
      ensures View() == Opened(old(View()), n)
      ensures request == if Key(n) in old(cache) then None else Some(reqId)
    {
      title := "[" + Label(n.kind) + "] " + n.id;
      visible := true;
      var key := TypeName(n.kind) + ":" + n.id;
      if key in cache {
        reqId := reqId + 1;
        RenderContent(cache[key]);
        return None;
      }
      reqId := reqId + 1;
      RenderStatus(Loading);
      request := Some(reqId);
    }

    /** The rest of an opening, run when its reply arrives. */
    method Receive(id: nat, n: Ref, reply: Reply)
      modifies this
      ensures View() == Replied(old(View()), id, n, reply)
    {
      if id != reqId {
        return;
      }
      match reply {
        case Ok(e) =>
          cache := cache[Key(n) := e];
          RenderContent(e);
        case Refused(status, detail) => RenderStatus(Error(ErrorHead(status), Strip(detail)));
        case Unreadable => RenderStatus(Error("조회 실패", "서버 응답을 해석할 수 없습니다."));
        case Broken(message) => RenderStatus(Error("소스 조회 요청 실패", message));
      }
    }

    method ClearCache()
      modifies `cache
      ensures View() == old(View()).(cache := map[])
    {
      cache := map[];
    }

    method Close()
      modifies `visible
      ensures View() == old(View()).(visible := false)
    {
      visible := false;
    }
  }

  // ----- Runs -----

  /** The popup with its surroundings: requests under way, what the server has ever sent for which module, and
      the request each cache entry came from. */
  datatype Session = Session(
    popup: Popup, pending: map<nat, Ref>, sent: set<(Ref, Entry)>, origin: map<string, nat>)

  const START := Session(NEW_POPUP, map[], {}, map[])

  datatype Event = Open(n: Ref) | Arrive(id: nat, reply: Reply) | Clear | Close

  /** One event. A reply can arrive for a request under way only, and once. */
  function Step(s: Session, e: Event): Session {
    match e
    case Open(n) =>
      var p := Opened(s.popup, n);
      s.(popup := p, pending := if Key(n) in s.popup.cache then s.pending else s.pending[p.reqId := n])
    case Arrive(id, reply) =>
      if id !in s.pending then s
      else
        var n := s.pending[id];
        Session(Replied(s.popup, id, n, reply), s.pending - {id},
                if reply.Ok? then s.sent + {(n, reply.entry)} else s.sent,
                if reply.Ok? && id == s.popup.reqId then s.origin[Key(n) := id] else s.origin)
    case Clear => s.(popup := s.popup.(cache := map[]), origin := map[])
    case Close => s.(popup := s.popup.(visible := false))
  }

  function Run(s: Session, events: seq<Event>): Session {
    if events == [] then s else Step(Run(s, events[..|events| - 1]), events[|events| - 1])
  }

  // ----- Names are told apart -----

  lemma KeysApart(a: Ref, b: Ref)
    requires Key(a) == Key(b)
    ensures a == b
  {
    var x, y := TypeName(a.kind), TypeName(b.kind);
    assert Key(a)[0] == x[0] && Key(b)[0] == y[0];
    assert Key(a)[1] == x[1] && Key(b)[1] == y[1];
    assert a.kind == b.kind;
    assert Key(a)[|x| + 1..] == a.id && Key(b)[|y| + 1..] == b.id;
  }

  lemma TitlesApart(a: Ref, b: Ref)
    requires Title(a) == Title(b)
    ensures a == b
  {
    var x, y := Label(a.kind), Label(b.kind);
    assert Title(a)[1] == x[0] && Title(b)[1] == y[0];
    assert Title(a)[2] == x[1] && Title(b)[2] == y[1];
    assert a.kind == b.kind;
    assert Title(a)[|x| + 3..] == a.id && Title(b)[|y| + 3..] == b.id;
  }

  // ----- What every run keeps -----

  /** The server sent `e` for the module that `name` names under `naming`. */
  ghost predicate SentFor(s: Session, naming: Ref -> string, name: string, e: Entry) {
    exists n :: naming(n) == name && (n, e) in s.sent
  }

  ghost predicate Safe(s: Session) {
    && (forall id :: id in s.pending ==> id <= s.popup.reqId)
    && (s.popup.reqId in s.pending ==> Title(s.pending[s.popup.reqId]) == s.popup.title)
    && (s.popup.body.Content? ==> SentFor(s, Title, s.popup.title, s.popup.body.entry))
    && (forall k :: k in s.popup.cache ==> SentFor(s, Key, k, s.popup.cache[k]))
    && s.popup.lastText == (if s.popup.body.Content? then s.popup.body.entry.text else "")
    && s.origin.Keys == s.popup.cache.Keys
  }

  lemma OpenIsSafe(s: Session, n: Ref)
    requires Safe(s)
    ensures Safe(Step(s, Open(n)))
  {
    if Key(n) in s.popup.cache {
      var m :| Key(m) == Key(n) && (m, s.popup.cache[Key(n)]) in s.sent;
      KeysApart(m, n);
    }
  }

  lemma ArriveIsSafe(s: Session, id: nat, reply: Reply)
    requires Safe(s)
    ensures Safe(Step(s, Arrive(id, reply)))
  {
    var next := Step(s, Arrive(id, reply));
    forall naming: Ref -> string, name, e | SentFor(s, naming, name, e) ensures SentFor(next, naming, name, e) {
      var n :| naming(n) == name && (n, e) in s.sent;
      assert (n, e) in next.sent;
    }
    if id in s.pending && id == s.popup.reqId && reply.Ok? {
      var n := s.pending[id];
      assert (n, reply.entry) in next.sent;
      assert SentFor(next, Title, Title(n), reply.entry) && SentFor(next, Key, Key(n), reply.entry);
    }
  }

  /** In every interleaving: what is shown was sent for the module in the title, every cache entry for the module
      of its key, and the copy button copies what is shown. */
  lemma {:induction false} EveryRunIsSafe(events: seq<Event>)
    ensures Safe(Run(START, events))
  {
    if events != [] {
      var s := Run(START, events[..|events| - 1]);
      EveryRunIsSafe(events[..|events| - 1]);
      match events[|events| - 1] {
        case Open(n) => OpenIsSafe(s, n);
        case Arrive(id, reply) => ArriveIsSafe(s, id, reply);
        case Clear =>
        case Close =>
      }
    }
  }

  /** Content on screen under a module's title was sent for that very module; so was its cache entry. */
  lemma ContentBelongsToTitle(events: seq<Event>, n: Ref)
    ensures var s := Run(START, events);
            && (s.popup.body.Content? && s.popup.title == Title(n) ==> (n, s.popup.body.entry) in s.sent)
            && (Key(n) in s.popup.cache ==> (n, s.popup.cache[Key(n)]) in s.sent)
  {
    var s := Run(START, events);
    EveryRunIsSafe(events);
    if s.popup.body.Content? && s.popup.title == Title(n) {
      var m :| Title(m) == s.popup.title && (m, s.popup.body.entry) in s.sent;
      TitlesApart(m, n);
    }
    if Key(n) in s.popup.cache {
      var m :| Key(m) == Key(n) && (m, s.popup.cache[Key(n)]) in s.sent;
      KeysApart(m, n);
    }
  }

  /** A reply to anything but the latest opening changes neither the screen nor the cache. */
  lemma LateReplyChangesNothing(s: Session, id: nat, reply: Reply)
    requires id != s.popup.reqId
    ensures Step(s, Arrive(id, reply)).popup == s.popup
  {
  }

  /** Nothing that happens while one waits -- late replies, clearing, closing -- disturbs the latest request. */
  lemma {:induction false} WaitingKeepsRequest(s: Session, events: seq<Event>, id: nat)
    requires id == s.popup.reqId && id in s.pending
    requires forall i :: 0 <= i < |events| ==> !events[i].Open? && (events[i].Arrive? ==> events[i].id != id)
    ensures var t := Run(s, events);
            && t.popup.reqId == id && id in t.pending && t.pending[id] == s.pending[id]
            && t.popup.title == s.popup.title && t.popup.body == s.popup.body
            && (t.popup.visible <==> s.popup.visible && forall i :: 0 <= i < |events| ==> !events[i].Close?)
  {
    if events != [] {
      var front, last := events[..|events| - 1], events[|events| - 1];
      WaitingKeepsRequest(s, front, id);
      assert !last.Open? && (last.Arrive? ==> last.id != id);
      if last.Arrive? {
        LateReplyChangesNothing(Run(s, front), last.id, last.reply);
      }
    }
  }

  /** The latest opening is served: its own reply is shown under its title and cached under its key. */
  lemma LatestOpeningIsServed(s: Session, n: Ref, events: seq<Event>, e: Entry)
    requires Key(n) !in s.popup.cache
    requires var id := s.popup.reqId + 1;
             forall i :: 0 <= i < |events| ==> !events[i].Open? && (events[i].Arrive? ==> events[i].id != id)
    ensures var t := Step(Run(Step(s, Open(n)), events), Arrive(s.popup.reqId + 1, Ok(e)));
            && t.popup.title == "[" + Label(n.kind) + "] " + n.id
            && t.popup.body == (if e.text == "" then NothingToShow else Content(e)) && t.popup.lastText == e.text
            && Key(n) in t.popup.cache && t.popup.cache[Key(n)] == e
            && (t.popup.visible <==> forall i :: 0 <= i < |events| ==> !events[i].Close?)
  {
    WaitingKeepsRequest(Step(s, Open(n)), events, s.popup.reqId + 1);
  }

  /** While it waits the popup says so; a reply that fails puts the failure on the screen and nothing in the cache. */
  lemma LatestFailureIsShown(s: Session, n: Ref, events: seq<Event>, reply: Reply)
    requires Key(n) !in s.popup.cache && !reply.Ok?
    requires var id := s.popup.reqId + 1;
             forall i :: 0 <= i < |events| ==> !events[i].Open? && (events[i].Arrive? ==> events[i].id != id)
    ensures var waiting := Run(Step(s, Open(n)), events);
            var t := Step(waiting, Arrive(s.popup.reqId + 1, reply));
            && waiting.popup.body == Loading && t.popup.title == "[" + Label(n.kind) + "] " + n.id
            && Failure(reply, t.popup.body) && t.popup.lastText == "" && t.popup.cache == waiting.popup.cache
  {
    WaitingKeepsRequest(Step(s, Open(n)), events, s.popup.reqId + 1);
    FailureIsShown(Run(Step(s, Open(n)), events), s.popup.reqId + 1, reply);
  }

  /** The failure on the screen: what went wrong, by status, and the server's detail without white space around it. */
  ghost predicate Failure(reply: Reply, body: Body) {
    match reply
    case Ok(_) => false
    case Refused(400, detail) => body == Error("요청 오류", Strip(detail))
    case Refused(404, detail) => body == Error("소스를 찾을 수 없음", Strip(detail))
    case Refused(503, detail) => body == Error("원격 서버 연결 실패", Strip(detail))
    case Refused(_, detail) => body == Error("조회 실패", Strip(detail))
    case Unreadable => body == Error("조회 실패", "서버 응답을 해석할 수 없습니다.")
    case Broken(message) => body == Error("소스 조회 요청 실패", message)
  }

  lemma FailureIsShown(s: Session, id: nat, reply: Reply)
    requires !reply.Ok? && id == s.popup.reqId && id in s.pending
    ensures var q := Step(s, Arrive(id, reply)).popup;
            Failure(reply, q.body) && q.lastText == "" && q.cache == s.popup.cache && q.title == s.popup.title
  {
    assert ErrorHead(400) == "요청 오류" && ErrorHead(404) == "소스를 찾을 수 없음";
  }

  /** What no request is under way for stays on the screen until another module is opened. */
  lemma {:induction false} ShownStays(s: Session, events: seq<Event>)
    requires s.popup.reqId !in s.pending && forall i :: 0 <= i < |events| ==> !events[i].Open?
    ensures var t := Run(s, events);
            && t.popup.reqId == s.popup.reqId && t.popup.reqId !in t.pending && t.popup.title == s.popup.title
            && t.popup.body == s.popup.body && t.popup.lastText == s.popup.lastText
  {
    if events != [] {
      var front, last := events[..|events| - 1], events[|events| - 1];
      ShownStays(s, front);
      assert !last.Open?;
      if last.Arrive? && last.id != Run(s, front).popup.reqId {
        LateReplyChangesNothing(Run(s, front), last.id, last.reply);
      }
    }
  }

  /** A cached module is shown at once, without a request; no reply that is still to come takes it off the screen. */
  lemma CachedOpeningIsShown(s: Session, n: Ref, events: seq<Event>)
    requires Safe(s) && Key(n) in s.popup.cache && forall i :: 0 <= i < |events| ==> !events[i].Open?
    ensures var e := s.popup.cache[Key(n)];
            var shown := Step(s, Open(n));
            var t := Run(shown, events);
            && shown.popup.visible && shown.pending == s.pending && shown.popup.cache == s.popup.cache
            && t.popup.title == "[" + Label(n.kind) + "] " + n.id
            && t.popup.body == (if e.text == "" then NothingToShow else Content(e)) && t.popup.lastText == e.text
  {
    ShownStays(Step(s, Open(n)), events);
  }

  // ----- Clearing -----

  /** Every cache entry came from a request numbered above `limit`. */
  ghost predicate Renewed(s: Session, limit: nat) {
    forall k :: k in s.origin ==> s.origin[k] > limit
  }

  lemma StepStaysRenewed(s: Session, e: Event, limit: nat)
    requires limit !in s.pending && s.popup.reqId >= limit && Renewed(s, limit)
    ensures var t := Step(s, e); limit !in t.pending && t.popup.reqId >= limit && Renewed(t, limit)
  {
  }

  lemma {:induction false} StaysRenewed(s: Session, events: seq<Event>, limit: nat)
    requires limit !in s.pending && s.popup.reqId >= limit && Renewed(s, limit)
    ensures var t := Run(s, events); limit !in t.pending && t.popup.reqId >= limit && Renewed(t, limit)
  {
    if events != [] {
      StaysRenewed(s, events[..|events| - 1], limit);
      StepStaysRenewed(Run(s, events[..|events| - 1]), events[|events| - 1], limit);
    }
  }

  /** Clearing rids the cache of everything asked for before, for good, exactly when the latest opening is not still
      waiting for its reply; otherwise that reply is cached after the clearing. */
  lemma ClearingIsFinalExactly(s: Session)
    ensures (forall events :: Renewed(Run(Step(s, Clear), events), s.popup.reqId)) <==> s.popup.reqId !in s.pending
  {
    var cleared, limit := Step(s, Clear), s.popup.reqId;
    if limit !in s.pending {
      forall events ensures Renewed(Run(cleared, events), limit) {
        StaysRenewed(cleared, events, limit);
      }
    } else {
      var late := [Arrive(limit, Ok(Entry("old", false)))];
      assert Run(cleared, late[..0]) == cleared;
      assert Run(cleared, late).origin[Key(s.pending[limit])] == limit;
      assert !Renewed(Run(cleared, late), limit);
    }
  }

  /** A run in which it fails: a module is opened, the cache is cleared for a new extraction, and then the reply
      comes. */
  lemma ClearedTooEarlyExample(n: Ref, e: Entry)
    ensures var s := Run(START, [Open(n), Clear, Arrive(1, Ok(e))]);
            Key(n) in s.popup.cache && s.popup.cache[Key(n)] == e
  {
    var events := [Open(n), Clear, Arrive(1, Ok(e))];
    assert events[..2] == [Open(n), Clear] && [Open(n), Clear][..1] == [Open(n)] && [Open(n)][..0] == [];
    assert Run(START, []) == START;
    assert Run(START, [Open(n)]) == Step(START, Open(n));
    assert Run(START, [Open(n), Clear]) == Step(Step(START, Open(n)), Clear);
  }
}
