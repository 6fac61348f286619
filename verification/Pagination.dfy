/** Listing resources in batches: the client asks page after page until the wanted number of items is shown. */
module Pagination {
  import opened Common

  const MAX_REQUEST_LIMIT: int := 1000

  const LIMIT_INT32: int := 0x8000_0000
  const RANGE_INT32: int := 0x1_0000_0000

  predicate IsInt32(x: int) {
    -LIMIT_INT32 <= x < LIMIT_INT32
  }

  /** A sum or difference as 32-bit signed arithmetic leaves it. */
  function Wrap32(x: int): (r: int)
    ensures IsInt32(r) && (IsInt32(x) ==> r == x)
  {
    (x + LIMIT_INT32) % RANGE_INT32 - LIMIT_INT32
  }

  method Add32(x: int, y: int) returns (r: int)
    ensures IsInt32(r) && (IsInt32(x + y) ==> r == x + y)
  {
    r := Wrap32(x + y);
  }

  type Item = string

  /** A list call. The cursor stands for a continuation token; a limit of zero asks for the server's maximum. */
  datatype Request = Request(limit: int, cursor: Option<nat>)

  datatype Page = Page(items: seq<Item>, next: Option<nat>)

  function Position(cursor: Option<nat>): nat {
    if cursor.Some? then cursor.value else 0
  }

  /** What the client relies on: a page continues exactly at its cursor, holds at most the server's maximum and at
      most the limit asked for, is not empty while items remain, and offers to continue only behind its last item;
      without such an offer nothing remains. */
  predicate GoodPage(items: seq<Item>, req: Request, page: Page) {
    var from := Position(req.cursor);
    var k := |page.items|;
    && from + k <= |items| && page.items == items[from..from + k]
    && k <= MAX_REQUEST_LIMIT && (req.limit > 0 ==> k <= req.limit)
    && (from < |items| ==> k > 0)
    && (page.next.Some? ==> page.next.value == from + k && from < |items|)
    && (page.next.None? ==> from + k == |items|)
  }

  class Server {
    const items: seq<Item>
    var requests: seq<Request>
    var answers: seq<Option<Page>>

    constructor (items: seq<Item>)
      ensures this.items == items && requests == [] && answers == []
    {
      this.items, requests, answers := items, [], [];
    }

    /** Answers with some good page, or fails. */
    method List(req: Request) returns (page: Option<Page>)
      modifies this
      ensures requests == old(requests) + [req] && answers == old(answers) + [page]
      ensures page.Some? ==> GoodPage(items, req, page.value)
    {
      page := Choose(req);
      requests, answers := requests + [req], answers + [page];
    }

    method Choose(req: Request) returns (page: Option<Page>)
      ensures page.Some? ==> GoodPage(items, req, page.value)
    {
      var from := Position(req.cursor);
      var up := *;
      if from > |items| || !up {
        return None;
      }
      var most := if 0 < req.limit < MAX_REQUEST_LIMIT then req.limit else MAX_REQUEST_LIMIT;
      var left := |items| - from;
      assert from == |items| || 0 < (if left < most then left else most);
      var k: nat :| from + k <= |items| && k <= most && (from < |items| ==> k > 0);
      var more := *;
      var next := if from + k < |items| || (from < |items| && more) then Some(from + k) else None;
      page := Some(Page(items[from..from + k], next));
    }
  }

  /** What a list command with the given limit should show of the items behind its starting point. */
  function Wanted(items: seq<Item>, start: nat, limit: int): seq<Item>
    requires start <= |items|
  {
    if limit == 0 || limit >= |items| - start then items[start..]
    else if limit < 0 then []
    else items[start..start + limit]
  }

  /** What has been shown so far is the stretch of items behind the starting point. */
  predicate ShownSoFar(items: seq<Item>, start: nat, shown: seq<Item>) {
    if start + |shown| <= |items| then shown == items[start..start + |shown|] else shown == []
  }

  lemma OnePageMore(items: seq<Item>, start: nat, shown: seq<Item>, req: Request, page: Page)
    requires ShownSoFar(items, start, shown) && GoodPage(items, req, page) && Position(req.cursor) == start + |shown|
    ensures ShownSoFar(items, start, shown + page.items) && start + |shown + page.items| <= |items|
  {
    var mid := start + |shown|;
    assert items[start..mid] + items[mid..mid + |page.items|] == items[start..mid + |page.items|];
  }

  lemma PrefixOfWanted(items: seq<Item>, start: nat, shown: seq<Item>, limit: int)
    requires ShownSoFar(items, start, shown) && start <= |items| && (limit == 0 || |shown| <= limit)
    ensures shown <= Wanted(items, start, limit)
    ensures (limit > 0 && |shown| == limit) || start + |shown| == |items| ==> shown == Wanted(items, start, limit)
  {
  }

  /** The limit a request must carry when `done` items have been shown: what is left of a positive limit if that is
      within the maximum, which is then never zero; otherwise the server's maximum. */
  predicate AsksRight(requested: int, done: int, req: Request) {
    if requested > 0 && requested - done <= 1000
    then req.limit == requested - done > 0
    else req.limit == 0
  }

  /** All requests from number `n` on carry the right limit for a listing that starts at `start`. */
  predicate AllAskRight(requests: seq<Request>, n: nat, requested: int, start: nat) {
    forall i :: n <= i < |requests| ==> AsksRight(requested, Position(requests[i].cursor) - start, requests[i])
  }

  /** Exactly the wanted items are shown, or, if the listing failed, some first ones of them. */
  predicate Shows(items: seq<Item>, start: nat, limit: int, shown: seq<Item>, ok: bool) {
    && (ok ==> start <= |items| && shown == Wanted(items, start, limit))
    && (!ok && start <= |items| ==> shown <= Wanted(items, start, limit))
  }

  lemma StoppedEarly(items: seq<Item>, start: nat, limit: int, shown: seq<Item>)
    requires ShownSoFar(items, start, shown) && (limit == 0 || |shown| <= limit)
    ensures Shows(items, start, limit, shown, false)
  {
    if start <= |items| {
      PrefixOfWanted(items, start, shown, limit);
    }
  }

  lemma ShownAll(items: seq<Item>, start: nat, limit: int, shown: seq<Item>)
    requires ShownSoFar(items, start, shown) && start + |shown| <= |items| && (limit == 0 || |shown| <= limit)
    requires (limit > 0 && |shown| == limit) || start + |shown| == |items|
    ensures Shows(items, start, limit, shown, true)
  {
    PrefixOfWanted(items, start, shown, limit);
  }

  /** The loop between two batches: more is wanted, and the next request begins where the last page ended. */
  predicate UnderWay(items: seq<Item>, start: nat, requested: int, printed: int, shown: seq<Item>, cursor: Option<nat>, limit: int) {
    && IsInt32(printed) && requested >= 0 && (requested > 0 ==> printed == |shown| < requested)
    && Position(cursor) == start + |shown| && ShownSoFar(items, start, shown)
    && (!(requested > 0 && requested - |shown| <= MAX_REQUEST_LIMIT) ==> limit == 0)
  }

  /** One page more: the listing is complete, or it is under way again with fewer items to come. */
  lemma PageShown(items: seq<Item>, start: nat, requested: int, printed: int, shown: seq<Item>, req: Request, page: Page, now: int)
    requires UnderWay(items, start, requested, printed, shown, req.cursor, req.limit) && IsInt32(requested)
    requires AsksRight(requested, |shown|, req) && GoodPage(items, req, page)
    requires IsInt32(now) && (IsInt32(printed + |page.items|) ==> now == printed + |page.items|)
    ensures var shown' := shown + page.items;
      && start + |shown'| <= |items|
      && (if (requested > 0 && now >= requested) || page.next.None? then Shows(items, start, requested, shown', true)
          else UnderWay(items, start, requested, now, shown', page.next, req.limit) && |page.items| > 0)
  {
    var shown' := shown + page.items;
    OnePageMore(items, start, shown, req, page);
    assert requested > 0 ==> now == |shown'| <= requested;
    if (requested > 0 && now >= requested) || page.next.None? {
      ShownAll(items, start, requested, shown');
    }
  }

  lemma OneMoreAsked(requests: seq<Request>, req: Request, n: nat, requested: int, start: nat)
    requires AllAskRight(requests, n, requested, start) && AsksRight(requested, Position(req.cursor) - start, req)
    ensures AllAskRight(requests + [req], n, requested, start)
  {
  }

  /** Where pages are displayed; a display may fail, and then nothing of the page is shown. */
  class Screen {
    var shown: seq<Item>
    var broken: bool

    constructor ()
      ensures shown == [] && !broken
    {
      shown, broken := [], false;
    }

    method Display(items: seq<Item>) returns (ok: bool)
      modifies this
      ensures ok == !broken
      ensures shown == if ok then old(shown) + items else old(shown)
    {
      ok := *;
      broken := !ok;
      if ok {
        shown := shown + items;
      }
    }
  }

  /** All requests from number `n` on were answered. */
  predicate Answered(answers: seq<Option<Page>>, n: nat) {
    forall i :: n <= i < |answers| ==> answers[i].Some?
  }

  /** What is wanted: the items behind the starting point, at most as many as a positive limit. */
  lemma WantedIs(items: seq<Item>, start: nat, limit: int)
    requires start <= |items| && limit >= 0
    ensures Wanted(items, start, limit) <= items[start..]
    ensures limit == 0 ==> Wanted(items, start, limit) == items[start..]
    ensures limit > 0 ==> |Wanted(items, start, limit)| == if limit < |items| - start then limit else |items| - start
  {
  }

  class GetOptions {
    var limit: int
    var cursor: Option<nat>
    const table: bool

    constructor (limit: int, start: Option<nat>, table: bool)
      ensures this.limit == limit && cursor == start && this.table == table
    {
      this.limit, cursor, this.table := limit, start, table;
    }

    predicate NeedsBatching()
      reads this
    {
      table && (limit == 0 || limit > MAX_REQUEST_LIMIT)
    }

    /** Only tables are listed in batches, and only when more than a thousand items may be asked for. */
    lemma NeedsBatchingIs()
      ensures NeedsBatching() <==> table && !(limit < 0 || 1 <= limit <= 1000)
    {
    }

    /** Lists and displays on an empty screen. The command fails exactly if a request or a display did. With batching,
        success means exactly the wanted items were shown, in order; on failure what was shown is a prefix of them.
        Without it, one page is fetched with the limit as given, and that page is what is shown. */
    method HandleList(server: Server, screen: Screen) returns (ok: bool)
      requires IsInt32(limit) && screen.shown == [] && !screen.broken
      modifies this, server, screen
      ensures old(server.answers) < server.answers
      ensures ok <==> Answered(server.answers, |old(server.answers)|) && !screen.broken
      ensures ok ==> Position(old(cursor)) <= |server.items|
      ensures old(NeedsBatching()) ==> Shows(server.items, Position(old(cursor)), old(limit), screen.shown, ok)
      ensures old(server.requests) <= server.requests
      ensures old(NeedsBatching()) ==>
        AllAskRight(server.requests, |old(server.requests)|, old(limit), Position(old(cursor)))
      ensures !old(NeedsBatching()) ==>
        && server.requests == old(server.requests) + [Request(old(limit), old(cursor))]
        && |server.answers| == |old(server.answers)| + 1
        && (ok ==> server.answers[|old(server.answers)|] == Some(Page(screen.shown, server.answers[|old(server.answers)|].value.next)))
        && (ok ==> screen.shown <= server.items[Position(old(cursor))..])
    {
      if !NeedsBatching() {
        var page := ShowPage(server, screen);
        ok := page.Some?;
        assert ok ==> screen.shown == page.value.items;
        return;
      }
      ok := Batches(server, screen);
    }

    /** Fetches one page and displays it; there is no page if either fails. */
    method ShowPage(server: Server, screen: Screen) returns (page: Option<Page>)
      requires !screen.broken
      modifies server, screen
      ensures server.requests == old(server.requests) + [Request(limit, cursor)]
      ensures |server.answers| == |old(server.answers)| + 1 && old(server.answers) <= server.answers
      ensures page.Some? ==>
        && server.answers[|old(server.answers)|] == page && !screen.broken
        && GoodPage(server.items, Request(limit, cursor), page.value)
      ensures page.None? ==> server.answers[|old(server.answers)|].None? || screen.broken
      ensures screen.shown == if page.Some? then old(screen.shown) + page.value.items else old(screen.shown)
    {
      page := server.List(Request(limit, cursor));
      if page.Some? {
        var displayed := screen.Display(page.value.items);
        if !displayed {
          return None;
        }
      }
    }

    /** Sets the limit of the next request once the rest fits into one. */
    method AskForRest(requested: int, printed: int)
      requires IsInt32(requested) && (requested > 0 ==> 0 <= printed < requested)
      modifies this`limit
      ensures limit == if requested > 0 && requested - printed <= MAX_REQUEST_LIMIT then requested - printed else old(limit)
    {
      var remaining := Add32(requested, -printed);
      if requested > 0 && remaining <= MAX_REQUEST_LIMIT {
        limit := remaining;
      }
    }

    method Batches(server: Server, screen: Screen) returns (ok: bool)
      requires IsInt32(limit) && NeedsBatching() && screen.shown == [] && !screen.broken
      modifies this, server, screen
      ensures old(server.answers) < server.answers
      ensures ok <==> Answered(server.answers, |old(server.answers)|) && !screen.broken
      ensures Shows(server.items, Position(old(cursor)), old(limit), screen.shown, ok)
      ensures old(server.requests) <= server.requests
      ensures AllAskRight(server.requests, |old(server.requests)|, old(limit), Position(old(cursor)))
    {
      ghost var start := Position(cursor);
      var requested := limit;
      var printed := 0;
      limit := 0;
      while true
        invariant IsInt32(requested)
        invariant old(server.answers) <= server.answers && Answered(server.answers, |old(server.answers)|) && !screen.broken
        invariant UnderWay(server.items, start, requested, printed, screen.shown, cursor, limit)
        invariant old(server.requests) <= server.requests
        invariant AllAskRight(server.requests, |old(server.requests)|, requested, start)
        decreases if start + |screen.shown| <= |server.items| then |server.items| - start - |screen.shown| else 0
      {
        AskForRest(requested, printed);
        ghost var before := screen.shown;
        ghost var was := printed;
        OneMoreAsked(server.requests, Request(limit, cursor), |old(server.requests)|, requested, start);
        var response := ShowPage(server, screen);
        if response.None? {
          StoppedEarly(server.items, start, requested, screen.shown);
          return false;
        }
        var page := response.value;
        printed := Add32(printed, |page.items|);
        PageShown(server.items, start, requested, was, before, Request(limit, cursor), page, printed);
        if requested > 0 && printed >= requested {
          break;
        }
        if page.next.None? {
          break;
        }
        cursor := page.next;
      }
      ok := true;
    }
  }
}
