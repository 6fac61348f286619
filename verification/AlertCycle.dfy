/** Whole processing cycles, any of which may fail at any stage, and what holds over every run of them. */
module AlertCycle {
  import opened Common
  import opened Alerts
  import opened AlertState
  import opened AlertOrder
  import opened AlertBatches

  // ---- What the event service delivers -------------------------------------------------------

  datatype RawEvent = RawEvent(kind: string, name: string, reason: string, message: string, time: Option<int>)

  /** One organization as listed: its id if it parses, the pages of events delivered before the listing ended,
      and whether the listing ended without an error. */
  datatype OrgFeed = OrgFeed(org: Option<string>, pages: seq<seq<RawEvent>>, complete: bool)

  predicate IsSpace(c: char) {
    var n := c as int;
    || 0x09 <= n <= 0x0D || n in {0x20, 0x85, 0xA0, 0x1680, 0x2028, 0x2029, 0x202F, 0x205F, 0x3000}
    || 0x2000 <= n <= 0x200A
  }

  predicate Blank(s: string) {
    forall i :: 0 <= i < |s| ==> IsSpace(s[i])
  }

  /** An event without a timestamp or without an object name is skipped. */
  predicate IsUsable(raw: RawEvent) {
    raw.time.Some? && !Blank(raw.name)
  }

  function ToEvent(org: string, raw: RawEvent): Event
    requires IsUsable(raw)
  {
    Event(org, raw.kind, raw.name, raw.reason, raw.message, raw.time.value)
  }

  function UsableEvents(org: string, raws: seq<RawEvent>): seq<Event> {
    if raws == [] then []
    else
      var n := |raws| - 1;
      if IsUsable(raws[n]) then UsableEvents(org, raws[..n]) + [ToEvent(org, raws[n])] else UsableEvents(org, raws[..n])
  }

  function Flatten(pages: seq<seq<RawEvent>>): seq<RawEvent> {
    if pages == [] then [] else Flatten(pages[..|pages| - 1]) + pages[|pages| - 1]
  }

  function ListingOf(org: string, feed: OrgFeed): Listing {
    Listing(org, UsableEvents(org, Flatten(feed.pages)))
  }

  /** The organizations whose id parses, with their usable events. */
  function Listings(feeds: seq<OrgFeed>): seq<Listing> {
    if feeds == [] then []
    else
      var n := |feeds| - 1;
      if feeds[n].org.None? then Listings(feeds[..n])
      else Listings(feeds[..n]) + [ListingOf(feeds[n].org.value, feeds[n])]
  }

  function AllEvents(xs: seq<Listing>): seq<Event> {
    if xs == [] then [] else xs[0].events + AllEvents(xs[1..])
  }

  lemma {:induction false} RunAllIsRun(c: Ctx, xs: seq<Listing>)
    ensures RunAll(c, xs) == Run(c, AllEvents(xs))
    decreases |xs|
  {
    if xs != [] {
      RunAllIsRun(Run(c, xs[0].events), xs[1..]);
      RunAppend(c, xs[0].events, AllEvents(xs[1..]));
    }
  }

  lemma {:induction false} UsableEventsAppend(org: string, a: seq<RawEvent>, b: seq<RawEvent>)
    ensures UsableEvents(org, a + b) == UsableEvents(org, a) + UsableEvents(org, b)
  {
    if b == [] {
      assert a + b == a;
    } else {
      var n := |b| - 1;
      assert (a + b)[..|a + b| - 1] == a + b[..n];
      UsableEventsAppend(org, a, b[..n]);
    }
  }

  lemma {:induction false} FlattenAppend(a: seq<seq<RawEvent>>, b: seq<seq<RawEvent>>)
    ensures Flatten(a + b) == Flatten(a) + Flatten(b)
  {
    if b == [] {
      assert a + b == a;
    } else {
      var n := |b| - 1;
      assert (a + b)[..|a + b| - 1] == a + b[..n];
      FlattenAppend(a, b[..n]);
    }
  }

  lemma {:induction false} AllEventsAppend(a: seq<Listing>, b: seq<Listing>)
    ensures AllEvents(a + b) == AllEvents(a) + AllEvents(b)
    decreases |a|
  {
    if a == [] {
      assert a + b == b;
    } else {
      assert (a + b)[1..] == a[1..] + b;
      AllEventsAppend(a[1..], b);
    }
  }

  /** What organizations a cycle visits first comes first in its events, what it lists on earlier pages comes first
      among those of one organization, and an organization without an id contributes nothing. */
  lemma ListedInOrder(a: seq<OrgFeed>, b: seq<OrgFeed>, feed: OrgFeed, page: seq<RawEvent>)
    ensures AllEvents(Listings(a + b)) == AllEvents(Listings(a)) + AllEvents(Listings(b))
    ensures feed.org.None? ==> AllEvents(Listings([feed])) == []
    ensures feed.org.Some? && feed.pages == [page] ==> AllEvents(Listings([feed])) == UsableEvents(feed.org.value, page)
    ensures feed.org.Some? ==>
      AllEvents(Listings([feed.(pages := feed.pages + [page])]))
        == AllEvents(Listings([feed])) + UsableEvents(feed.org.value, page)
  {
    ListingsAppend(a, b);
    AllEventsAppend(Listings(a), Listings(b));
    if feed.org.Some? {
      OneFeed(feed.org.value, feed);
      var longer := feed.(pages := feed.pages + [page]);
      OneFeed(feed.org.value, longer);
      FlattenAppend(feed.pages, [page]);
      OnePage(page);
      UsableEventsAppend(feed.org.value, Flatten(feed.pages), page);
    } else {
      assert [feed][..0] == [];
    }
  }

  lemma OnePage(page: seq<RawEvent>)
    ensures Flatten([page]) == page
  {
    assert [page][..0] == [];
    assert Flatten([page]) == [] + page;
  }

  lemma OneFeed(org: string, feed: OrgFeed)
    requires feed.org == Some(org)
    ensures AllEvents(Listings([feed])) == UsableEvents(org, Flatten(feed.pages))
  {
    assert [feed][..0] == [];
    var xs := Listings([feed]);
    assert xs == [ListingOf(org, feed)] && xs[1..] == [];
    assert AllEvents(xs) == xs[0].events + [];
  }

  // ---- Sending -------------------------------------------------------------------------------

  /** The pairs of a map in some order, each once: the order in which the map happens to be visited. */
  predicate Enumerates(order: seq<(string, string)>, alerts: AlertMap) {
    && (forall i, j :: 0 <= i < j < |order| ==> order[i] != order[j])
    && (forall i :: 0 <= i < |order| ==> Lookup(alerts, order[i].0, order[i].1).Some?)
    && (forall p :: p in AllPairs(alerts) ==> p in order)
  }

  function ItemAt(alerts: AlertMap, p: (string, string)): Posted {
    var found := Lookup(alerts, p.0, p.1);
    ToPosted(if found.Some? then found.value else BLANK)
  }

  /** What is to be posted, in the order of the visit. */
  function Items(order: seq<(string, string)>, alerts: AlertMap): (items: seq<Posted>)
    ensures |items| == |order|
    ensures forall i :: 0 <= i < |order| ==> items[i] == ItemAt(alerts, order[i])
  {
    seq(|order|, i requires 0 <= i < |order| => ItemAt(alerts, order[i]))
  }

  // ---- A cycle -------------------------------------------------------------------------------

  /** What the outside does during a cycle. A missing list or time is a failed call. The map is visited in `order`
      for sending; if a batch is refused, `stoppedAt` is the number of batches accepted before it. */
  datatype CycleIn = CycleIn(
    feeds: Option<seq<OrgFeed>>, dbTime: Option<int>, order: seq<(string, string)>, stoppedAt: Option<nat>, storeOk: bool)
  {
    predicate Processed() {
      feeds.Some? && dbTime.Some?
    }

    predicate Sent() {
      Processed() && stoppedAt.None?
    }

    predicate Succeeds() {
      Sent() && storeOk
    }
  }

  /** The exporter between cycles: the map, the checkpoint time, the metrics it publishes, and what Alertmanager has
      accepted so far. Until a checkpoint has a map of its own, the map of a failed cycle is lost. */
  datatype Exporter = Exporter(
    hasMap: bool, alerts: AlertMap, timestamp: int, gauge: nat, createdTotal: nat, resolvedTotal: nat, delivered: set<Posted>)

  function Processing(s: Exporter, feeds: seq<OrgFeed>): Ctx {
    RunAll(Ctx(s.alerts, 0, 0), Listings(feeds))
  }

  /** The batches accepted when `alerts` is sent: all, or those before the one refused. */
  function AcceptedBatches(alerts: AlertMap, input: CycleIn): seq<seq<Posted>> {
    var batches := Chunk(Items(input.order, alerts));
    if input.stoppedAt.Some? && input.stoppedAt.value < |batches| then batches[..input.stoppedAt.value] else batches
  }

  function Keep(s: Exporter, alerts: AlertMap): Exporter {
    if s.hasMap then s.(alerts := alerts) else s
  }

  /** One cycle. The map is shared with the checkpoint, so what processing and cleanup did to it stays even when
      a later stage fails. */
  function Cycle(s: Exporter, input: CycleIn): Exporter {
    if input.feeds.None? then s
    else
      var c := Processing(s, input.feeds.value);
      if input.dbTime.None? then Keep(s, c.alerts)
      else
        var delivered := s.delivered + Elements(Concat(AcceptedBatches(c.alerts, input)));
        if input.stoppedAt.Some? then Keep(s, c.alerts).(delivered := delivered)
        else if !input.storeOk then Keep(s, Swept(c.alerts)).(delivered := delivered)
        else Exporter(true, Swept(c.alerts), input.dbTime.value, |AllPairs(Swept(c.alerts))|,
                      s.createdTotal + c.created, s.resolvedTotal + c.resolved, delivered)
  }

  function Cycles(s: Exporter, inputs: seq<CycleIn>): Exporter {
    if inputs == [] then s else Cycle(Cycles(s, inputs[..|inputs| - 1]), inputs[|inputs| - 1])
  }

  /** Sending visits each entry of the map once, and stops at a batch that exists. */
  predicate Possible(s: Exporter, input: CycleIn) {
    input.Processed() ==>
      var alerts := Processing(s, input.feeds.value).alerts;
      && Enumerates(input.order, alerts)
      && (input.stoppedAt.Some? ==> input.stoppedAt.value < |Chunk(Items(input.order, alerts))|)
  }

  predicate PossibleRun(s: Exporter, inputs: seq<CycleIn>) {
    inputs == [] ||
      var n := |inputs| - 1;
      PossibleRun(s, inputs[..n]) && Possible(Cycles(s, inputs[..n]), inputs[n])
  }

  /** The events a cycle lists, in the order in which they are processed. */
  function EventsOf(input: CycleIn): seq<Event> {
    if input.feeds.None? then [] else AllEvents(Listings(input.feeds.value))
  }

  /** How many first sets at the zero time a run processes, each cycle with the map it starts from. */
  function PhantomsOver(s: Exporter, inputs: seq<CycleIn>): nat {
    if inputs == [] then 0
    else
      var n := |inputs| - 1;
      PhantomsOver(s, inputs[..n]) + Phantoms(Cycles(s, inputs[..n]).alerts, EventsOf(inputs[n]))
  }

  /** With set times there are none. */
  lemma {:induction false} SetTimesMeanNoPhantoms(s: Exporter, inputs: seq<CycleIn>)
    requires forall input, ev :: input in inputs && ev in EventsOf(input) ==> ev.time != ZERO_TIME
    ensures PhantomsOver(s, inputs) == 0
  {
    if inputs != [] {
      var n := |inputs| - 1;
      SetTimesMeanNoPhantoms(s, inputs[..n]);
      assert inputs[n] in inputs;
      NoPhantoms(Cycles(s, inputs[..n]).alerts, EventsOf(inputs[n]));
    }
  }

  // ---- Over every run ------------------------------------------------------------------------

  /** What is left of the map: as it was, processed, or processed and swept. */
  function MapAfter(s: Exporter, input: CycleIn): AlertMap {
    if input.feeds.None? || (!s.hasMap && !input.Succeeds()) then s.alerts
    else
      var alerts := Processing(s, input.feeds.value).alerts;
      if input.Sent() then Swept(alerts) else alerts
  }

  lemma CycleMap(s: Exporter, input: CycleIn)
    ensures Cycle(s, input).alerts == MapAfter(s, input)
  {
  }

  /** Processing keeps the state of the map and deletes nothing. */
  lemma ProcessingKeepsState(s: Exporter, feeds: seq<OrgFeed>)
    ensures var alerts := Processing(s, feeds).alerts;
      && (Exclusive(s.alerts) ==> Exclusive(alerts))
      && (NamedOrBlank(s.alerts) ==> NamedOrBlank(alerts))
      && (WellFormed(s.alerts) && Phantoms(s.alerts, AllEvents(Listings(feeds))) == 0 ==> WellFormed(alerts))
      && forall k, r :: Lookup(s.alerts, k, r).Some? ==> Lookup(alerts, k, r).Some?
  {
    RunAllIsRun(Ctx(s.alerts, 0, 0), Listings(feeds));
    RunKeepsState(Ctx(s.alerts, 0, 0), AllEvents(Listings(feeds)));
  }

  lemma CycleKeepsState(s: Exporter, input: CycleIn)
    ensures Exclusive(s.alerts) ==> Exclusive(Cycle(s, input).alerts)
    ensures NamedOrBlank(s.alerts) ==> NamedOrBlank(Cycle(s, input).alerts)
    ensures WellFormed(s.alerts) && Phantoms(s.alerts, EventsOf(input)) == 0 ==> WellFormed(Cycle(s, input).alerts)
  {
    CycleMap(s, input);
    if input.feeds.Some? {
      ProcessingKeepsState(s, input.feeds.value);
      SweptKeepsState(Processing(s, input.feeds.value).alerts);
    }
  }

  /** Whatever fails and whenever events are stamped, a resource never has two active alerts of one exclusive group
      and entries stay named or blank; without first sets at the zero time every entry describes its own place in the
      map. */
  lemma {:induction false} StateHoldsOverRuns(s: Exporter, inputs: seq<CycleIn>)
    ensures Exclusive(s.alerts) ==> Exclusive(Cycles(s, inputs).alerts)
    ensures NamedOrBlank(s.alerts) ==> NamedOrBlank(Cycles(s, inputs).alerts)
    ensures WellFormed(s.alerts) && PhantomsOver(s, inputs) == 0 ==> WellFormed(Cycles(s, inputs).alerts)
  {
    if inputs != [] {
      var n := |inputs| - 1;
      StateHoldsOverRuns(s, inputs[..n]);
      CycleKeepsState(Cycles(s, inputs[..n]), inputs[n]);
    }
  }

  /** A visit of the whole map, all of it accepted: every entry is in what was accepted. */
  lemma SentMeansAccepted(alerts: AlertMap, input: CycleIn, k: string, r: string)
    requires Enumerates(input.order, alerts) && input.stoppedAt.None? && Lookup(alerts, k, r).Some?
    ensures ToPosted(Lookup(alerts, k, r).value) in Concat(AcceptedBatches(alerts, input))
  {
    var items := Items(input.order, alerts);
    ChunksConcat(items);
    PairAt(alerts, (k, r));
    var i :| 0 <= i < |input.order| && input.order[i] == (k, r);
    assert items[i] == ItemAt(alerts, (k, r));
  }

  /** The alert stood in the map of this cycle as ended, and the notice of its end was accepted. */
  ghost predicate EndWasDelivered(s: Exporter, input: CycleIn, k: string, r: string, info: AlertInfo) {
    && input.Sent() && info.endsAt.Some?
    && Lookup(Processing(s, input.feeds.value).alerts, k, r) == Some(info)
    && EndNotice(r, info) in Concat(AcceptedBatches(Processing(s, input.feeds.value).alerts, input))
  }

  /** An alert disappears only in a cycle in which every batch was accepted, one of them with its end time. */
  lemma DeletedOnlyAfterDelivery(s: Exporter, input: CycleIn, k: string, r: string)
    requires Possible(s, input) && Lookup(s.alerts, k, r).Some? && Lookup(Cycle(s, input).alerts, k, r).None?
    ensures exists info: AlertInfo :: EndWasDelivered(s, input, k, r, info) && EndNotice(r, info) in Cycle(s, input).delivered
  {
    var alerts := Processing(s, input.feeds.value).alerts;
    ProcessingKeepsState(s, input.feeds.value);
    SweptAt(alerts, k, r);
    SentMeansAccepted(alerts, input, k, r);
    PostedTells(Lookup(alerts, k, r).value);
    assert EndWasDelivered(s, input, k, r, Lookup(alerts, k, r).value);
  }

  /** The same for cycle `i` of a run. */
  ghost predicate EndWasDeliveredAt(s: Exporter, inputs: seq<CycleIn>, i: nat, k: string, r: string, info: AlertInfo) {
    i < |inputs| && EndWasDelivered(Cycles(s, inputs[..i]), inputs[i], k, r, info)
  }

  /** In some cycle of the run the alert was delivered with its end time. */
  ghost predicate EndWasDeliveredIn(s: Exporter, inputs: seq<CycleIn>, k: string, r: string) {
    exists i: nat, info: AlertInfo ::
      EndWasDeliveredAt(s, inputs, i, k, r, info) && EndNotice(r, info) in Cycles(s, inputs).delivered
  }

  lemma DeliveredAtPrefix(s: Exporter, inputs: seq<CycleIn>, n: nat, i: nat, k: string, r: string, info: AlertInfo)
    requires n <= |inputs| && EndWasDeliveredAt(s, inputs[..n], i, k, r, info)
    ensures EndWasDeliveredAt(s, inputs, i, k, r, info)
  {
    assert inputs[..n][..i] == inputs[..i] && inputs[..n][i] == inputs[i];
  }

  lemma DeliveredGrows(s: Exporter, inputs: seq<CycleIn>, n: nat, item: Posted)
    requires n + 1 == |inputs| && item in Cycles(s, inputs[..n]).delivered
    ensures item in Cycles(s, inputs).delivered
  {
  }

  lemma DeliveredStays(s: Exporter, inputs: seq<CycleIn>, n: nat, k: string, r: string)
    requires n + 1 == |inputs| && EndWasDeliveredIn(s, inputs[..n], k, r)
    ensures EndWasDeliveredIn(s, inputs, k, r)
  {
    var i: nat, info: AlertInfo :| EndWasDeliveredAt(s, inputs[..n], i, k, r, info)
                                   && EndNotice(r, info) in Cycles(s, inputs[..n]).delivered;
    DeliveredAtPrefix(s, inputs, n, i, k, r, info);
    DeliveredGrows(s, inputs, n, EndNotice(r, info));
  }

  /** Over a whole run: an alert that was there and is gone was delivered with its end time in some cycle. */
  lemma {:induction false} GoneMeansDelivered(s: Exporter, inputs: seq<CycleIn>, k: string, r: string)
    requires PossibleRun(s, inputs)
    requires Lookup(s.alerts, k, r).Some? && Lookup(Cycles(s, inputs).alerts, k, r).None?
    ensures EndWasDeliveredIn(s, inputs, k, r)
  {
    var n := |inputs| - 1;
    var before := Cycles(s, inputs[..n]);
    if Lookup(before.alerts, k, r).None? {
      GoneMeansDelivered(s, inputs[..n], k, r);
      DeliveredStays(s, inputs, n, k, r);
    } else {
      DeletedOnlyAfterDelivery(before, inputs[n], k, r);
      var info: AlertInfo :| EndWasDelivered(before, inputs[n], k, r, info) && EndNotice(r, info) in Cycle(before, inputs[n]).delivered;
      assert EndWasDeliveredAt(s, inputs, n, k, r, info);
    }
  }

  lemma {:induction false} AcceptedWasItem(batches: seq<seq<Posted>>, n: nat, item: Posted)
    requires n <= |batches| && item in Concat(batches[..n])
    ensures item in Concat(batches)
    decreases n
  {
    if n > 0 {
      assert batches[..n][1..] == batches[1..][..n - 1];
      if item !in batches[0] {
        AcceptedWasItem(batches[1..], n - 1, item);
      }
    }
  }

  predicate Describes(item: Posted, info: AlertInfo) {
    item == Posted(info.reason, info.name, info.org, info.summary, info.startsAt,
                   if info.endsAt.Some? then info.endsAt.value else ZERO_TIME)
  }

  /** Whatever a cycle adds to what was delivered describes an entry of its map. */
  lemma OnlyEntriesAreDelivered(s: Exporter, input: CycleIn, item: Posted)
    requires Possible(s, input) && item in Cycle(s, input).delivered && item !in s.delivered
    ensures input.Processed()
    ensures exists k, r :: Lookup(Processing(s, input.feeds.value).alerts, k, r).Some?
                           && Describes(item, Lookup(Processing(s, input.feeds.value).alerts, k, r).value)
  {
    var alerts := Processing(s, input.feeds.value).alerts;
    var items := Items(input.order, alerts);
    if input.stoppedAt.Some? {
      AcceptedWasItem(Chunk(items), input.stoppedAt.value, item);
    }
    ChunksConcat(items);
    var i :| 0 <= i < |items| && items[i] == item;
    var (k, r) := input.order[i];
    PostedTells(Lookup(alerts, k, r).value);
    assert Lookup(alerts, k, r).Some? && Describes(item, Lookup(alerts, k, r).value);
  }

  /** The last cycle that succeeded in every stage, or -1. */
  function LastSuccess(inputs: seq<CycleIn>): (i: int)
    ensures -1 <= i < |inputs|
    ensures i >= 0 ==> inputs[i].Succeeds()
    ensures forall j :: i < j < |inputs| ==> !inputs[j].Succeeds()
  {
    if inputs == [] then -1
    else if inputs[|inputs| - 1].Succeeds() then |inputs| - 1
    else LastSuccess(inputs[..|inputs| - 1])
  }

  predicate SameMetrics(a: Exporter, b: Exporter) {
    a.gauge == b.gauge && a.createdTotal == b.createdTotal && a.resolvedTotal == b.resolvedTotal
  }

  /** The checkpoint time and the totals move only when process, send and store all succeed. */
  lemma CheckpointMovesOnlyOnSuccess(s: Exporter, input: CycleIn)
    ensures Cycle(s, input).timestamp == if input.Succeeds() then input.dbTime.value else s.timestamp
    ensures !input.Succeeds() ==>
      SameMetrics(Cycle(s, input), s)
  {
  }

  lemma {:induction false} TimeIsLastSuccess(s: Exporter, inputs: seq<CycleIn>)
    ensures var i := LastSuccess(inputs);
      Cycles(s, inputs).timestamp == if i >= 0 then inputs[i].dbTime.value else s.timestamp
  {
    if inputs != [] {
      var n := |inputs| - 1;
      TimeIsLastSuccess(s, inputs[..n]);
      CheckpointMovesOnlyOnSuccess(Cycles(s, inputs[..n]), inputs[n]);
    }
  }

  lemma {:induction false} MetricsAreLastSuccess(s: Exporter, inputs: seq<CycleIn>)
    ensures var i := LastSuccess(inputs);
      SameMetrics(Cycles(s, inputs), if i >= 0 then Cycles(s, inputs[..i + 1]) else s)
  {
    if inputs != [] {
      var n := |inputs| - 1;
      if inputs[n].Succeeds() {
        assert inputs[..n + 1] == inputs;
      } else {
        MetricsAreLastSuccess(s, inputs[..n]);
        CheckpointMovesOnlyOnSuccess(Cycles(s, inputs[..n]), inputs[n]);
        assert inputs[..n][..LastSuccess(inputs) + 1] == inputs[..LastSuccess(inputs) + 1];
      }
    }
  }

  /** After any run the checkpoint time is that of the last fully successful cycle, and the published metrics are
      those it left. */
  lemma CheckpointIsLastSuccess(s: Exporter, inputs: seq<CycleIn>)
    ensures var i := LastSuccess(inputs);
      && Cycles(s, inputs).timestamp == (if i >= 0 then inputs[i].dbTime.value else s.timestamp)
      && SameMetrics(Cycles(s, inputs), if i >= 0 then Cycles(s, inputs[..i + 1]) else s)
  {
    TimeIsLastSuccess(s, inputs);
    MetricsAreLastSuccess(s, inputs);
  }

  /** What the cycle did to the number of active alerts without adding it to the totals: everything processed, if it
      failed and the map is kept; and the first sets at the zero time. */
  function Drift(s: Exporter, input: CycleIn): int {
    if input.feeds.None? || (!s.hasMap && !input.Succeeds()) then 0
    else
      var c := Processing(s, input.feeds.value);
      Phantoms(s.alerts, EventsOf(input)) + if input.Succeeds() then 0 else c.created - c.resolved
  }

  /** The same over a run. */
  function Unreported(s: Exporter, inputs: seq<CycleIn>): int {
    if inputs == [] then 0
    else
      var n := |inputs| - 1;
      Unreported(s, inputs[..n]) + Drift(Cycles(s, inputs[..n]), inputs[n])
  }

  /** A fully successful cycle adds to the totals exactly what its events did: the alerts that became active, except
      first sets at the zero time, and those that stopped being active. */
  lemma TotalsAreExact(s: Exporter, input: CycleIn)
    requires input.Succeeds()
    ensures var c := Ctx(s.alerts, 0, 0);
      && Cycle(s, input).createdTotal == s.createdTotal + Openings(c, EventsOf(input)) - Phantoms(s.alerts, EventsOf(input))
      && Cycle(s, input).resolvedTotal == s.resolvedTotal + Endings(c, EventsOf(input))
  {
    RunAllIsRun(Ctx(s.alerts, 0, 0), Listings(input.feeds.value));
    RunCounts(Ctx(s.alerts, 0, 0), EventsOf(input));
  }

  lemma ProcessingBalance(s: Exporter, input: CycleIn)
    requires input.feeds.Some?
    ensures var c := Processing(s, input.feeds.value);
      && |ActivePairs(c.alerts)| == |ActivePairs(s.alerts)| + c.created - c.resolved
                                    + Phantoms(s.alerts, EventsOf(input))
      && |ActivePairs(Swept(c.alerts))| == |ActivePairs(c.alerts)|
      && |AllPairs(Swept(c.alerts))| == |ActivePairs(c.alerts)| + |EndedPairs(Swept(c.alerts))|
  {
    var c := Processing(s, input.feeds.value);
    var xs := Listings(input.feeds.value);
    RunAllIsRun(Ctx(s.alerts, 0, 0), xs);
    RunExcess(Ctx(s.alerts, 0, 0), AllEvents(xs));
    SweptPairs(c.alerts);
    CountEntries(Swept(c.alerts));
  }

  lemma CycleBalance(s: Exporter, input: CycleIn)
    ensures var s' := Cycle(s, input);
      && |ActivePairs(s'.alerts)| ==
           |ActivePairs(s.alerts)| + (s'.createdTotal - s.createdTotal) - (s'.resolvedTotal - s.resolvedTotal) + Drift(s, input)
      && (input.Succeeds() ==> s'.gauge == |ActivePairs(s'.alerts)| + |EndedPairs(s'.alerts)|)
  {
    CycleMap(s, input);
    CheckpointMovesOnlyOnSuccess(s, input);
    if input.feeds.Some? {
      ProcessingBalance(s, input);
    }
  }

  /** Where entries describe themselves, a cycle that sends leaves nothing but active alerts. */
  lemma NothingEndedAfterSuccess(s: Exporter, input: CycleIn)
    requires WellFormed(s.alerts) && Phantoms(s.alerts, EventsOf(input)) == 0 && input.Succeeds()
    ensures EndedPairs(Cycle(s, input).alerts) == {}
  {
    ProcessingKeepsState(s, input.feeds.value);
    SweptKeepsState(Processing(s, input.feeds.value).alerts);
  }

  /** In any run the number of active alerts is the initial one plus all alerts created minus all alerts resolved,
      where the totals miss exactly what failed cycles processed and first sets at the zero time. */
  lemma {:induction false} ActiveCountOverRuns(s: Exporter, inputs: seq<CycleIn>)
    ensures var s' := Cycles(s, inputs);
      |ActivePairs(s'.alerts)| == |ActivePairs(s.alerts)|
        + (s'.createdTotal - s.createdTotal) - (s'.resolvedTotal - s.resolvedTotal) + Unreported(s, inputs)
  {
    if inputs != [] {
      var n := |inputs| - 1;
      ActiveCountOverRuns(s, inputs[..n]);
      CycleBalance(Cycles(s, inputs[..n]), inputs[n]);
    }
  }

  /** Over fully successful cycles the totals miss exactly the first sets at the zero time. */
  lemma {:induction false} UnreportedArePhantoms(s: Exporter, inputs: seq<CycleIn>)
    requires forall input :: input in inputs ==> input.Succeeds()
    ensures Unreported(s, inputs) == PhantomsOver(s, inputs)
  {
    if inputs != [] {
      UnreportedArePhantoms(s, inputs[..|inputs| - 1]);
      assert inputs[|inputs| - 1] in inputs;
    }
  }

  /** After a fully successful cycle the published gauge is the initial number of active alerts plus all created minus
      all resolved, plus what the totals missed, plus the ended entries that cleanup could not delete. Over fully
      successful cycles the totals miss just the first sets at the zero time; without those, on entries that
      described themselves at first, nothing is left over. */
  lemma GaugeConservation(s: Exporter, inputs: seq<CycleIn>)
    requires inputs != [] && inputs[|inputs| - 1].Succeeds()
    ensures var s' := Cycles(s, inputs);
      s'.gauge == |ActivePairs(s.alerts)| + (s'.createdTotal - s.createdTotal) - (s'.resolvedTotal - s.resolvedTotal)
                  + Unreported(s, inputs) + |EndedPairs(s'.alerts)|
    ensures (forall input :: input in inputs ==> input.Succeeds()) ==> Unreported(s, inputs) == PhantomsOver(s, inputs)
    ensures WellFormed(s.alerts) && PhantomsOver(s, inputs) == 0 ==> EndedPairs(Cycles(s, inputs).alerts) == {}
  {
    var n := |inputs| - 1;
    ActiveCountOverRuns(s, inputs);
    CycleBalance(Cycles(s, inputs[..n]), inputs[n]);
    if forall input :: input in inputs ==> input.Succeeds() {
      UnreportedArePhantoms(s, inputs);
    }
    if WellFormed(s.alerts) && PhantomsOver(s, inputs) == 0 {
      StateHoldsOverRuns(s, inputs[..n]);
      NothingEndedAfterSuccess(Cycles(s, inputs[..n]), inputs[n]);
    }
  }

  // ---- What cannot be seen -------------------------------------------------------------------

  predicate SameEvents(a: OrgFeed, b: OrgFeed) {
    a.org == b.org && Flatten(a.pages) == Flatten(b.pages)
  }

  lemma {:induction false} ListingsOfSameEvents(xs: seq<OrgFeed>, ys: seq<OrgFeed>)
    requires |xs| == |ys| && forall i :: 0 <= i < |xs| ==> SameEvents(xs[i], ys[i])
    ensures Listings(xs) == Listings(ys)
  {
    if xs != [] {
      var n := |xs| - 1;
      assert SameEvents(xs[n], ys[n]);
      ListingsOfSameEvents(xs[..n], ys[..n]);
    }
  }

  lemma {:induction false} ListingsAppend(a: seq<OrgFeed>, b: seq<OrgFeed>)
    ensures Listings(a + b) == Listings(a) + Listings(b)
  {
    if b == [] {
      assert a + b == a;
    } else {
      var n := |b| - 1;
      assert (a + b)[..|a + b| - 1] == a + b[..n];
      ListingsAppend(a, b[..n]);
    }
  }

  lemma {:induction false} ListingsOfRearranged(xs: seq<OrgFeed>, ys: seq<OrgFeed>)
    requires multiset(xs) == multiset(ys)
    ensures multiset(Listings(xs)) == multiset(Listings(ys))
    decreases |xs|
  {
    if xs == [] {
      assert |multiset(ys)| == 0;
    } else {
      var p := SameRest(xs, ys);
      var x := xs[0];
      ListingsOfRearranged(xs[1..], Without(ys, p));
      assert xs == [x] + xs[1..];
      ListingsAppend([x], xs[1..]);
      assert ys == ys[..p] + ([x] + ys[p + 1..]);
      ListingsAppend(ys[..p], [x] + ys[p + 1..]);
      ListingsAppend([x], ys[p + 1..]);
      ListingsAppend(ys[..p], ys[p + 1..]);
    }
  }

  /** Organizations are listed once, and their ids hold no colon. */
  predicate Separable(feeds: seq<OrgFeed>) {
    && (forall i, j :: 0 <= i < j < |feeds| && feeds[i].org.Some? && feeds[j].org.Some? ==> feeds[i].org != feeds[j].org)
    && (forall i :: 0 <= i < |feeds| && feeds[i].org.Some? ==> ColonFree(feeds[i].org.value))
  }

  lemma {:induction false} UsableEventsLabelled(org: string, raws: seq<RawEvent>)
    requires ColonFree(org)
    ensures Labelled(Listing(org, UsableEvents(org, raws)))
  {
    if raws != [] {
      UsableEventsLabelled(org, raws[..|raws| - 1]);
    }
  }

  lemma {:induction false} ListingsSeparated(feeds: seq<OrgFeed>)
    requires Separable(feeds)
    ensures DistinctOrgs(Listings(feeds))
    ensures forall i :: 0 <= i < |Listings(feeds)| ==> Labelled(Listings(feeds)[i])
    ensures forall i :: 0 <= i < |Listings(feeds)| ==> exists j :: 0 <= j < |feeds| && feeds[j].org == Some(Listings(feeds)[i].org)
  {
    if feeds != [] {
      var n := |feeds| - 1;
      ListingsSeparated(feeds[..n]);
      if feeds[n].org.Some? {
        UsableEventsLabelled(feeds[n].org.value, Flatten(feeds[n].pages));
      }
      var xs := Listings(feeds[..n]);
      forall i | 0 <= i < |xs|
        ensures exists j :: 0 <= j < |feeds| && feeds[j].org == Some(xs[i].org)
        ensures feeds[n].org.Some? ==> xs[i].org != feeds[n].org.value
      {
        var j :| 0 <= j < n && feeds[..n][j].org == Some(xs[i].org);
        assert feeds[j].org == Some(xs[i].org);
      }
    }
  }

  /** Neither the order in which organizations are visited nor the way their events are cut into pages can be seen
      in the map or in the counters. */
  lemma OrderAndPagesAreInvisible(s: Exporter, xs: seq<OrgFeed>, ys: seq<OrgFeed>, zs: seq<OrgFeed>)
    requires Separable(xs) && multiset(xs) == multiset(ys)
    requires |ys| == |zs| && forall i :: 0 <= i < |ys| ==> SameEvents(ys[i], zs[i])
    ensures Processing(s, xs) == Processing(s, zs)
  {
    ListingsSeparated(xs);
    ListingsOfRearranged(xs, ys);
    OrganizationOrderIsInvisible(Ctx(s.alerts, 0, 0), Listings(xs), Listings(ys));
    ListingsOfSameEvents(ys, zs);
  }
}
