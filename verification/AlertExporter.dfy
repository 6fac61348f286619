/** The exporter's cycle as it runs: checkpoints that share one map on the heap, organizations and pages in
    loops, sending in batches, cleanup in place. */
module AlertExporter {
  import opened Common
  import opened Alerts
  import opened AlertState
  import opened AlertOrder
  import opened AlertContext
  import opened AlertCycle
  import opened AlertBatches

  /** A checkpoint points at the map of alerts; the map is absent in a checkpoint loaded without one. */
  class AlertCheckpoint {
    const timestamp: int
    const store: AlertStore?

    constructor (timestamp: int, store: AlertStore?)
      ensures this.timestamp == timestamp && this.store == store
    {
      this.timestamp, this.store := timestamp, store;
    }
  }

  // ---- Processing events ---------------------------------------------------------------------

  lemma UsableEventsNext(org: string, raws: seq<RawEvent>, i: nat)
    requires i < |raws|
    ensures UsableEvents(org, raws[..i + 1]) ==
      if IsUsable(raws[i]) then UsableEvents(org, raws[..i]) + [ToEvent(org, raws[i])] else UsableEvents(org, raws[..i])
  {
    assert raws[..i + 1][..i] == raws[..i];
  }

  method ProcessPage(ctx: CheckpointContext, org: string, events: seq<RawEvent>) returns (skipped: nat)
    modifies ctx, ctx.store
    ensures ctx.Value() == Run(old(ctx.Value()), UsableEvents(org, events))
    ensures skipped == |events| - |UsableEvents(org, events)|
  {
    skipped := 0;
    ghost var was := ctx.Value();
    for i := 0 to |events|
      invariant ctx.Value() == Run(was, UsableEvents(org, events[..i]))
      invariant skipped == i - |UsableEvents(org, events[..i])|
    {
      var ev := events[i];
      UsableEventsNext(org, events, i);
      if ev.time == None {
        skipped := skipped + 1;
        continue;
      }
      if Blank(ev.name) {
        skipped := skipped + 1;
        continue;
      }
      ctx.ProcessEvent(ToEvent(org, ev));
      RunSnoc(was, UsableEvents(org, events[..i]), ToEvent(org, ev));
    }
    assert events[..|events|] == events;
  }

  /** Pages are fetched until one carries no continuation or a fetch fails; pages seen before a failure count. */
  method ProcessOrganizationEvents(ctx: CheckpointContext, org: string, pages: seq<seq<RawEvent>>, complete: bool)
    returns (ok: bool)
    modifies ctx, ctx.store
    ensures ok == complete
    ensures ctx.Value() == Run(old(ctx.Value()), UsableEvents(org, Flatten(pages)))
  {
    ghost var was := ctx.Value();
    for i := 0 to |pages|
      invariant ctx.Value() == Run(was, UsableEvents(org, Flatten(pages[..i])))
    {
      var _ := ProcessPage(ctx, org, pages[i]);
      assert pages[..i + 1][..i] == pages[..i];
      UsableEventsAppend(org, Flatten(pages[..i]), pages[i]);
      RunAppend(was, UsableEvents(org, Flatten(pages[..i])), UsableEvents(org, pages[i]));
    }
    assert pages[..|pages|] == pages;
    ok := complete;
  }

  lemma ListingsNext(c: Ctx, feeds: seq<OrgFeed>, i: nat)
    requires i < |feeds|
    ensures RunAll(c, Listings(feeds[..i + 1])) ==
      if feeds[i].org.Some? then Run(RunAll(c, Listings(feeds[..i])), UsableEvents(feeds[i].org.value, Flatten(feeds[i].pages)))
      else RunAll(c, Listings(feeds[..i]))
  {
    assert feeds[..i + 1][..i] == feeds[..i] && feeds[..i + 1][i] == feeds[i];
    if feeds[i].org.Some? {
      var x := ListingOf(feeds[i].org.value, feeds[i]);
      var c' := RunAll(c, Listings(feeds[..i]));
      RunAllAppend(c, Listings(feeds[..i]), [x]);
      assert RunAll(c', [x]) == RunAll(Run(c', x.events), []) by {
        assert [x][1..] == [];
      }
    }
  }

  method ProcessOrganizations(ctx: CheckpointContext, feeds: seq<OrgFeed>)
    modifies ctx, ctx.store
    ensures ctx.Value() == RunAll(old(ctx.Value()), Listings(feeds))
  {
    ghost var was := ctx.Value();
    for i := 0 to |feeds|
      invariant ctx.Value() == RunAll(was, Listings(feeds[..i]))
    {
      ListingsNext(was, feeds, i);
      if feeds[i].org.Some? {
        var _ := ProcessOrganizationEvents(ctx, feeds[i].org.value, feeds[i].pages, feeds[i].complete);
      }
    }
    assert feeds[..|feeds|] == feeds;
  }

  /** A new checkpoint, sharing the old one's map; the map is changed even when no checkpoint results. */
  method ProcessLatestEvents(current: AlertCheckpoint, feeds: Option<seq<OrgFeed>>, dbTime: Option<int>)
    returns (next: AlertCheckpoint?, created: nat, resolved: nat)
    modifies if current.store == null then {} else {current.store}
    ensures next != null <==> feeds.Some? && dbTime.Some?
    ensures next != null ==>
      && next.timestamp == dbTime.value && next.store != null
      && (if current.store == null then fresh(next.store) else next.store == current.store)
    ensures var before := if current.store == null then map[] else old(current.store.alerts);
      var c := if feeds.Some? then RunAll(Ctx(before, 0, 0), Listings(feeds.value)) else Ctx(before, 0, 0);
      && (current.store != null ==> current.store.alerts == c.alerts)
      && (next != null ==> next.store.alerts == c.alerts && created == c.created && resolved == c.resolved)
  {
    created, resolved := 0, 0;
    if feeds.None? {
      return null, 0, 0;
    }
    var store := current.store;
    if store == null {
      store := new AlertStore(map[]);
    }
    var ctx := new CheckpointContext(store);
    ProcessOrganizations(ctx, feeds.value);
    if dbTime.None? {
      return null, 0, 0;
    }
    next := new AlertCheckpoint(dbTime.value, store);
    created, resolved := ctx.created, ctx.resolved;
  }

  // ---- Sending and cleaning up ---------------------------------------------------------------

  predicate PartOf(part: Reasons, m: Reasons) {
    forall r :: r in part ==> r in m && part[r] == m[r]
  }

  /** Some ended entry of the resource carries `r` as its reason. */
  predicate NamedByEnded(m: Reasons, r: string) {
    exists q :: q in m && !m[q].Active() && m[q].reason == r
  }

  /** What cleanup may make of one resource, whatever its entries say and in whatever order they are visited: no
      entry changes, one goes only if an ended entry names it, and an ended entry that names itself goes. */
  predicate CleanedTo(m: Reasons, kept: Reasons) {
    && PartOf(kept, m)
    && (forall r :: r in m && r !in kept ==> NamedByEnded(m, r))
    && (forall r :: r in m && Sweeps(r, m[r]) ==> r !in kept)
  }

  /** Deletes ended alerts of one resource by their Reason field, visiting entries in any order. An entry deleted
      before it is reached is not visited. */
  method CleanupResource(m: Reasons) returns (kept: Reasons)
    ensures CleanedTo(m, kept)
  {
    kept := m;
    var todo := m.Keys;
    while todo != {}
      invariant PartOf(kept, m)
      invariant forall r :: r in m && r !in kept ==> NamedByEnded(m, r)
      invariant forall r :: r in m && r !in todo && Sweeps(r, m[r]) ==> r !in kept
      decreases |todo|
    {
      var r :| r in todo;
      todo := todo - {r};
      if r in kept {
        if !kept[r].Active() {
          assert NamedByEnded(m, kept[r].reason);
          kept := kept - {kept[r].reason};
        }
      }
    }
  }

  /** Where entries are named or blank, cleanup of a resource leaves no choice. */
  lemma CleanedIsSwept(alerts: AlertMap, k: string, kept: Reasons)
    requires NamedOrBlank(alerts) && k in alerts && CleanedTo(alerts[k], kept)
    ensures kept == SweptReasons(alerts[k])
  {
    var m := alerts[k];
    forall r | r in m
      ensures r in kept <==> !Sweeps(r, m[r])
    {
      assert Lookup(alerts, k, r) == Some(m[r]);
      if r !in kept {
        var q :| q in m && !m[q].Active() && m[q].reason == r;
        assert Lookup(alerts, k, q) == Some(m[q]);
      }
    }
  }

  /** The state of one resource while cleanup is under way: untouched, or done and gone when nothing is left. */
  ghost predicate Cleaning(was: AlertMap, now: AlertMap, done: set<string>, k: string) {
    if k in was && k in done then
      (k in now <==> Resource(now, k) != map[]) && CleanedTo(was[k], Resource(now, k))
    else AgreeAt(was, now, k)
  }

  /** What cleanup may make of a map. */
  ghost predicate CleanedMap(was: AlertMap, now: AlertMap) {
    forall k :: Cleaning(was, now, was.Keys, k)
  }

  lemma CleanedMapIsSwept(was: AlertMap, now: AlertMap)
    requires NamedOrBlank(was) && CleanedMap(was, now)
    ensures now == Swept(was)
  {
    forall k
      ensures k in now <==> k in Swept(was)
      ensures k in now ==> now[k] == Swept(was)[k]
    {
      assert Cleaning(was, now, was.Keys, k);
      if k in was {
        CleanedIsSwept(was, k, Resource(now, k));
      }
    }
  }

  /** Cleanup changes no entry, and deletes one only if an ended entry of the same resource names it. */
  lemma CleanedAt(was: AlertMap, now: AlertMap, k: string, r: string)
    requires CleanedMap(was, now)
    ensures Lookup(now, k, r).Some? ==> Lookup(now, k, r) == Lookup(was, k, r)
    ensures Lookup(was, k, r).Some? && Lookup(now, k, r).None? ==> NamedByEnded(was[k], r)
    ensures k in now ==> now[k] != map[]
  {
    assert Cleaning(was, now, was.Keys, k);
  }

  lemma CleanedKeepsExclusive(was: AlertMap, now: AlertMap)
    requires CleanedMap(was, now) && Exclusive(was)
    ensures Exclusive(now)
  {
    forall k, r, q | SameGroup(r, q) && r != q
      ensures !(IsActive(now, k, r) && IsActive(now, k, q))
    {
      CleanedAt(was, now, k, r);
      CleanedAt(was, now, k, q);
      assert !(IsActive(was, k, r) && IsActive(was, k, q));
    }
  }

  lemma CleaningStep(was: AlertMap, before: AlertMap, after: AlertMap, done: set<string>, k: string, kept: Reasons)
    requires forall j :: Cleaning(was, before, done, j)
    requires k in was && k !in done && CleanedTo(was[k], kept)
    requires after == if kept == map[] then before - {k} else before[k := kept]
    ensures forall j :: Cleaning(was, after, done + {k}, j)
  {
    forall j
      ensures Cleaning(was, after, done + {k}, j)
    {
      assert Cleaning(was, before, done, j);
    }
  }

  method CleanupAlerts(store: AlertStore)
    modifies store
    ensures CleanedMap(old(store.alerts), store.alerts)
    ensures NamedOrBlank(old(store.alerts)) ==> store.alerts == Swept(old(store.alerts))
  {
    ghost var was := store.alerts;
    ghost var done: set<string> := {};
    var todo := store.alerts.Keys;
    while todo != {}
      invariant done + todo == was.Keys && done !! todo
      invariant forall k :: Cleaning(was, store.alerts, done, k)
      decreases |todo|
    {
      var k :| k in todo;
      assert Cleaning(was, store.alerts, done, k);
      ghost var before := store.alerts;
      var kept := CleanupResource(store.alerts[k]);
      store.alerts := if kept == map[] then store.alerts - {k} else store.alerts[k := kept];
      todo := todo - {k};
      CleaningStep(was, before, store.alerts, done, k, kept);
      done := done + {k};
    }
    assert done == was.Keys;
    if NamedOrBlank(was) {
      CleanedMapIsSwept(was, store.alerts);
    }
  }

  /** Sends everything, then cleans up. Nothing is deleted unless every batch was accepted, and then every alert
      of the map, ended ones with their end time, is in what was accepted. */
  method SendAlerts(client: Client, store: AlertStore, order: seq<(string, string)>, post: (nat, nat) -> PostOutcome)
    returns (ok: bool, accepted: seq<seq<Posted>>)
    requires Usable(client) && Enumerates(order, store.alerts)
    modifies store
    ensures accepted <= Chunk(Items(order, old(store.alerts)))
    ensures ok <==> |accepted| == |Chunk(Items(order, old(store.alerts)))|
    ensures !ok ==> store.alerts == old(store.alerts)
    ensures ok ==> Concat(accepted) == Items(order, old(store.alerts))
    ensures AnsweredAs(client, post, |Chunk(Items(order, old(store.alerts)))|, if ok then None else Some(|accepted|))
    ensures ok ==> CleanedMap(old(store.alerts), store.alerts)
    ensures ok && NamedOrBlank(old(store.alerts)) ==> store.alerts == Swept(old(store.alerts))
  {
    ok, accepted := SendAll(client, Items(order, store.alerts), post);
    if ok {
      CleanupAlerts(store);
    }
  }

  // ---- Counting ------------------------------------------------------------------------------

  /** The active gauge: the number of entries in the map. */
  method CalculateActiveAlerts(alerts: AlertMap) returns (n: nat)
    ensures n == |AllPairs(alerts)|
  {
    n := 0;
    ghost var done: AlertMap := map[];
    var todo := alerts.Keys;
    NoPairs();
    while todo != {}
      invariant forall k :: k in todo ==> k in alerts && k !in done
      invariant forall k :: k in alerts ==> k in todo || k in done
      invariant forall k :: k in done ==> k in alerts && done[k] == alerts[k]
      invariant n == |AllPairs(done)|
      decreases |todo|
    {
      var k :| k in todo;
      OneResourceMore(done, k, alerts[k]);
      n := n + |alerts[k]|;
      done := done[k := alerts[k]];
      todo := todo - {k};
    }
    assert done == alerts;
  }

  lemma OneResourceMore(done: AlertMap, k: string, m: Reasons)
    requires k !in done
    ensures |AllPairs(done[k := m])| == |AllPairs(done)| + |m|
  {
    PairsOfSize(k, m.Keys);
    assert |m.Keys| == |m|;
    PairsAdded(done, k, m);
  }

  lemma PairsAdded(done: AlertMap, k: string, m: Reasons)
    requires k !in done
    ensures AllPairs(done[k := m]) == AllPairs(done) + PairsOf(k, m.Keys)
    ensures AllPairs(done) !! PairsOf(k, m.Keys)
  {
    forall p: (string, string)
      ensures p in AllPairs(done[k := m]) <==> p in AllPairs(done) + PairsOf(k, m.Keys)
      ensures !(p in AllPairs(done) && p in PairsOf(k, m.Keys))
    {
      PairAt(done[k := m], p);
      PairAt(done, p);
    }
  }

  lemma NoPairs()
    ensures AllPairs(map[]) == {}
  {
  }

  // ---- The cycle -----------------------------------------------------------------------------

  /** Some order of the pairs of a map. */
  method Enumerate(alerts: AlertMap) returns (order: seq<(string, string)>)
    ensures Enumerates(order, alerts)
  {
    order := [];
    var todo := AllPairs(alerts);
    while todo != {}
      invariant todo <= AllPairs(alerts)
      invariant forall i, j :: 0 <= i < j < |order| ==> order[i] != order[j]
      invariant forall p :: p in order <==> p in AllPairs(alerts) && p !in todo
      invariant forall i :: 0 <= i < |order| ==> Lookup(alerts, order[i].0, order[i].1).Some?
      decreases |todo|
    {
      var p :| p in todo;
      PairAt(alerts, p);
      todo := todo - {p};
      order := order + [p];
    }
  }

  /** The outside during one cycle: what the services answer, and what Alertmanager answers to each attempt. */
  datatype Round = Round(feeds: Option<seq<OrgFeed>>, dbTime: Option<int>, post: (nat, nat) -> PostOutcome, storeOk: bool)

  /** The round as the specification sees it: sending stops at the first batch that Alertmanager does not accept. */
  ghost predicate Sees(s: AlertCycle.Exporter, input: CycleIn, client: Client, round: Round) {
    && input.feeds == round.feeds && input.dbTime == round.dbTime && input.storeOk == round.storeOk
    && (input.Processed() ==>
          var batches := Chunk(Items(input.order, Processing(s, input.feeds.value).alerts));
          AnsweredAs(client, round.post, |batches|, input.stoppedAt))
  }

  /** What the exporter was before a cycle and is after it. Over a map whose entries are named or blank the cycle is
      exactly the specified one, failures included. Over any map exclusive groups stay exclusive, and an entry goes
      only in a cycle that sent everything, when an ended entry of its resource names it. */
  ghost predicate CarriesOut(s: AlertCycle.Exporter, input: CycleIn, s': AlertCycle.Exporter) {
    && Possible(s, input)
    && (NamedOrBlank(s.alerts) ==> s' == Cycle(s, input))
    && (Exclusive(s.alerts) ==> Exclusive(s'.alerts))
    && (forall k, r :: Lookup(s.alerts, k, r).Some? && Lookup(s'.alerts, k, r).None? ==>
          input.Sent() && NamedByEnded(Resource(Processing(s, input.feeds.value).alerts, k), r))
  }

  lemma NotProcessed(s: AlertCycle.Exporter, input: CycleIn)
    requires !input.Processed()
    ensures CarriesOut(s, input, if input.feeds.None? then s else Keep(s, Processing(s, input.feeds.value).alerts))
  {
    if input.feeds.Some? {
      ProcessingKeepsState(s, input.feeds.value);
    }
  }

  lemma NotSent(s: AlertCycle.Exporter, input: CycleIn, accepted: seq<seq<Posted>>)
    requires input.Processed() && input.stoppedAt == Some(|accepted|)
    requires var alerts := Processing(s, input.feeds.value).alerts;
      Enumerates(input.order, alerts) && accepted < Chunk(Items(input.order, alerts))
    ensures CarriesOut(s, input,
      Keep(s, Processing(s, input.feeds.value).alerts).(delivered := s.delivered + Elements(Concat(accepted))))
  {
    ProcessingKeepsState(s, input.feeds.value);
    assert accepted == AcceptedBatches(Processing(s, input.feeds.value).alerts, input);
  }

  /** The exporter after everything was sent and `swept` is left. */
  ghost function AfterSend(s: AlertCycle.Exporter, input: CycleIn, swept: AlertMap, accepted: seq<seq<Posted>>): AlertCycle.Exporter
    requires input.Processed()
  {
    var c := Processing(s, input.feeds.value);
    var delivered := s.delivered + Elements(Concat(accepted));
    if !input.storeOk then Keep(s, swept).(delivered := delivered)
    else AlertCycle.Exporter(true, swept, input.dbTime.value, |AllPairs(swept)|,
                             s.createdTotal + c.created, s.resolvedTotal + c.resolved, delivered)
  }

  lemma Sent(s: AlertCycle.Exporter, input: CycleIn, swept: AlertMap, accepted: seq<seq<Posted>>)
    requires input.Sent()
    requires var alerts := Processing(s, input.feeds.value).alerts;
      && Enumerates(input.order, alerts) && CleanedMap(alerts, swept)
      && accepted == Chunk(Items(input.order, alerts))
    ensures CarriesOut(s, input, AfterSend(s, input, swept, accepted))
  {
    var alerts := Processing(s, input.feeds.value).alerts;
    var s' := AfterSend(s, input, swept, accepted);
    ProcessingKeepsState(s, input.feeds.value);
    if NamedOrBlank(s.alerts) {
      CleanedMapIsSwept(alerts, swept);
    }
    if Exclusive(s.alerts) {
      CleanedKeepsExclusive(alerts, swept);
    }
    forall k, r | Lookup(s.alerts, k, r).Some? && Lookup(s'.alerts, k, r).None?
      ensures NamedByEnded(Resource(alerts, k), r)
    {
      CleanedAt(alerts, swept, k, r);
    }
  }

  ghost predicate Followed(s: AlertCycle.Exporter, inputs: seq<CycleIn>, client: Client, rounds: seq<Round>) {
    && |inputs| == |rounds|
    && forall i :: 0 <= i < |rounds| ==> Sees(Cycles(s, inputs[..i]), inputs[i], client, rounds[i])
  }

  lemma OneMoreCycle(s: AlertCycle.Exporter, inputs: seq<CycleIn>, input: CycleIn, client: Client, rounds: seq<Round>, i: nat)
    requires i < |rounds| && PossibleRun(s, inputs) && Followed(s, inputs, client, rounds[..i])
    requires Possible(Cycles(s, inputs), input) && Sees(Cycles(s, inputs), input, client, rounds[i])
    ensures var more := inputs + [input];
      && Cycles(s, more) == Cycle(Cycles(s, inputs), input) && PossibleRun(s, more)
      && Followed(s, more, client, rounds[..i + 1])
  {
    var more := inputs + [input];
    assert more[..|inputs|] == inputs;
    forall j | 0 <= j < |more|
      ensures Sees(Cycles(s, more[..j]), more[j], client, rounds[..i + 1][j])
    {
      if j < i {
        assert more[..j] == inputs[..j];
        assert Sees(Cycles(s, inputs[..j]), inputs[j], client, rounds[..i][j]);
      }
    }
  }

  class Runner {
    const client: Client
    var checkpoint: AlertCheckpoint
    var gauge: nat
    var createdTotal: nat
    var resolvedTotal: nat
    /** Everything in a batch that Alertmanager accepted. */
    ghost var delivered: set<Posted>

    constructor (client: Client, checkpoint: AlertCheckpoint)
      requires Usable(client)
      ensures this.client == client && this.checkpoint == checkpoint
      ensures gauge == 0 && createdTotal == 0 && resolvedTotal == 0 && delivered == {}
    {
      this.client, this.checkpoint := client, checkpoint;
      gauge, createdTotal, resolvedTotal, delivered := 0, 0, 0, {};
    }

    ghost function State(): AlertCycle.Exporter
      reads this, checkpoint.store
    {
      AlertCycle.Exporter(checkpoint.store != null, if checkpoint.store == null then map[] else checkpoint.store.alerts,
                          checkpoint.timestamp, gauge, createdTotal, resolvedTotal, delivered)
    }

    method ProcessingCycle(round: Round) returns (ghost input: CycleIn)
      requires Usable(client)
      modifies this, if checkpoint.store == null then {} else {checkpoint.store}
      ensures checkpoint.store == old(checkpoint).store || (old(checkpoint).store == null && fresh(checkpoint.store))
      ensures Sees(old(State()), input, client, round) && CarriesOut(old(State()), input, State())
    {
      ghost var was := State();
      var next, created, resolved := ProcessLatestEvents(checkpoint, round.feeds, round.dbTime);
      if next == null {
        input := CycleIn(round.feeds, round.dbTime, [], None, round.storeOk);
        NotProcessed(was, input);
        return;
      }
      input := SendAndStore(round, next, created, resolved, was);
    }

    /** The rest of a cycle once events are processed. */
    method SendAndStore(round: Round, next: AlertCheckpoint, created: nat, resolved: nat, ghost was: AlertCycle.Exporter)
      returns (ghost input: CycleIn)
      requires Usable(client) && round.feeds.Some? && round.dbTime == Some(next.timestamp)
      requires next.store != null && (checkpoint.store != null ==> next.store == checkpoint.store)
      requires var c := Processing(was, round.feeds.value);
        State() == Keep(was, c.alerts) && Ctx(next.store.alerts, created, resolved) == c
      modifies this, next.store
      ensures checkpoint == old(checkpoint) || checkpoint == next
      ensures Sees(was, input, client, round) && CarriesOut(was, input, State())
    {
      var store := next.store;
      var order := Enumerate(store.alerts);
      var sent, accepted := SendAlerts(client, store, order, round.post);
      delivered := delivered + Elements(Concat(accepted));
      if !sent {
        input := CycleIn(round.feeds, round.dbTime, order, Some(|accepted|), round.storeOk);
        NotSent(was, input, accepted);
        return;
      }
      input := CycleIn(round.feeds, round.dbTime, order, None, round.storeOk);
      Sent(was, input, store.alerts, accepted);
      if !round.storeOk {
        return;
      }
      gauge := CalculateActiveAlerts(store.alerts);
      createdTotal := createdTotal + created;
      resolvedTotal := resolvedTotal + resolved;
      checkpoint := next;
    }

    /** Cycle after cycle. From a map whose entries are named or blank the exporter goes through the specified run, so
        what holds of every such run holds of it: an alert that is gone was delivered with its end time. From any map
        exclusive groups stay exclusive. */
    method Poll(rounds: seq<Round>) returns (ghost inputs: seq<CycleIn>)
      requires Usable(client)
      modifies this, if checkpoint.store == null then {} else {checkpoint.store}
      ensures |inputs| == |rounds|
      ensures NamedOrBlank(old(State()).alerts) ==>
        && State() == Cycles(old(State()), inputs) && PossibleRun(old(State()), inputs)
        && Followed(old(State()), inputs, client, rounds)
        && forall k, r :: Lookup(old(State()).alerts, k, r).Some? && Lookup(State().alerts, k, r).None? ==>
             EndWasDeliveredIn(old(State()), inputs, k, r)
      ensures Exclusive(old(State()).alerts) ==> Exclusive(State().alerts)
    {
      inputs := [];
      ghost var was := State();
      for i := 0 to |rounds|
        invariant |inputs| == i
        invariant checkpoint.store == old(checkpoint).store || (old(checkpoint).store == null && fresh(checkpoint.store))
        invariant NamedOrBlank(was.alerts) ==>
          State() == Cycles(was, inputs) && PossibleRun(was, inputs) && Followed(was, inputs, client, rounds[..i])
        invariant Exclusive(was.alerts) ==> Exclusive(State().alerts)
      {
        ghost var before := inputs;
        ghost var input := ProcessingCycle(rounds[i]);
        inputs := inputs + [input];
        if NamedOrBlank(was.alerts) {
          StateHoldsOverRuns(was, before);
          OneMoreCycle(was, before, input, client, rounds, i);
        }
      }
      assert rounds[..|rounds|] == rounds;
      forall k, r | NamedOrBlank(was.alerts) && Lookup(was.alerts, k, r).Some? && Lookup(State().alerts, k, r).None?
        ensures EndWasDeliveredIn(was, inputs, k, r)
      {
        GoneMeansDelivered(was, inputs, k, r);
      }
    }
  }
}
