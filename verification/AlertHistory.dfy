/** The alert map against everything listed since the exporter began: across cycles, failed ones included, and across
    the cleanups between them. */
module AlertHistory {
  import opened Common
  import opened Alerts
  import opened AlertLog
  import opened AlertState
  import opened AlertOrder
  import opened AlertCycle

  // ---- One log after another -----------------------------------------------------------------

  lemma {:induction false} LastTouchAppend(a: seq<Event>, b: seq<Event>, k: string, r: string)
    ensures LastTouch(a + b, k, r) == if LastTouch(b, k, r) >= 0 then |a| + LastTouch(b, k, r) else LastTouch(a, k, r)
  {
    if b == [] {
      assert a + b == a;
    } else {
      var n := |b| - 1;
      assert (a + b)[..|a + b| - 1] == a + b[..n];
      LastTouchAppend(a, b[..n], k, r);
    }
  }

  lemma {:induction false} LastSetAppend(a: seq<Event>, b: seq<Event>, k: string, r: string)
    ensures LastSet(a + b, k, r) == if LastSet(b, k, r) >= 0 then |a| + LastSet(b, k, r) else LastSet(a, k, r)
  {
    if b == [] {
      assert a + b == a;
    } else {
      var n := |b| - 1;
      assert (a + b)[..|a + b| - 1] == a + b[..n];
      LastSetAppend(a, b[..n], k, r);
    }
  }

  /** A map that says which alert is active stands for the log before it. */
  lemma LogActiveAppend(initial: AlertMap, log: seq<Event>, alerts: AlertMap, evs: seq<Event>, k: string, r: string)
    requires IsActive(alerts, k, r) <==> LogActive(initial, log, k, r)
    ensures LogActive(alerts, evs, k, r) <==> LogActive(initial, log + evs, k, r)
  {
    LastTouchAppend(log, evs, k, r);
  }

  /** So does one that says when the alerts it still holds began. */
  lemma LogStartAppend(initial: AlertMap, log: seq<Event>, alerts: AlertMap, evs: seq<Event>, k: string, r: string)
    requires Lookup(alerts, k, r).Some? ==> LogStart(initial, log, k, r) == Some(Lookup(alerts, k, r).value.startsAt)
    ensures LogStart(alerts, evs, k, r).Some? ==> LogStart(initial, log + evs, k, r) == LogStart(alerts, evs, k, r)
  {
    LastSetAppend(log, evs, k, r);
  }

  /** The map tells of one alert what the log tells: whether it is active and, if it is still held, when it began. */
  predicate Tells(initial: AlertMap, log: seq<Event>, alerts: AlertMap, k: string, r: string) {
    && (IsActive(alerts, k, r) <==> LogActive(initial, log, k, r))
    && (Lookup(alerts, k, r).Some? ==> LogStart(initial, log, k, r) == Some(Lookup(alerts, k, r).value.startsAt))
  }

  lemma EventsKeepTelling(initial: AlertMap, log: seq<Event>, c: Ctx, evs: seq<Event>, k: string, r: string)
    requires Tells(initial, log, c.alerts, k, r) && NoStaleSet(c.alerts, evs)
    ensures Tells(initial, log + evs, Run(c, evs).alerts, k, r)
  {
    MapAgreesWithLog(c, evs, k, r);
    LogActiveAppend(initial, log, c.alerts, evs, k, r);
    LogStartAppend(initial, log, c.alerts, evs, k, r);
  }

  lemma SweepKeepsTelling(initial: AlertMap, log: seq<Event>, alerts: AlertMap, k: string, r: string)
    requires Tells(initial, log, alerts, k, r)
    ensures Tells(initial, log, Swept(alerts), k, r)
  {
    SweptAt(alerts, k, r);
  }

  // ---- Runs ----------------------------------------------------------------------------------

  /** What the last cycle of the run processes is kept: there was a map, or some cycle up to it made one. */
  predicate Kept(hasMap: bool, inputs: seq<CycleIn>) {
    hasMap || LastSuccess(inputs) >= 0
  }

  /** Everything listed in cycles whose map was kept, in order. */
  function LogOf(hasMap: bool, inputs: seq<CycleIn>): seq<Event> {
    if inputs == [] then []
    else
      var n := |inputs| - 1;
      LogOf(hasMap, inputs[..n]) + if Kept(hasMap, inputs) then EventsOf(inputs[n]) else []
  }

  lemma {:induction false} HasMapIffKept(s: Exporter, inputs: seq<CycleIn>)
    ensures Cycles(s, inputs).hasMap <==> Kept(s.hasMap, inputs)
  {
    if inputs != [] {
      HasMapIffKept(s, inputs[..|inputs| - 1]);
    }
  }

  /** No cycle whose map is kept meets a set that is stale for the map it starts from. */
  predicate NoStaleOver(s: Exporter, inputs: seq<CycleIn>) {
    inputs == [] ||
      var n := |inputs| - 1;
      && NoStaleOver(s, inputs[..n])
      && (Kept(s.hasMap, inputs) ==> NoStaleSet(Cycles(s, inputs[..n]).alerts, EventsOf(inputs[n])))
  }

  lemma ProcessingIsRun(s: Exporter, input: CycleIn)
    requires input.feeds.Some?
    ensures Processing(s, input.feeds.value) == Run(Ctx(s.alerts, 0, 0), EventsOf(input))
  {
    RunAllIsRun(Ctx(s.alerts, 0, 0), Listings(input.feeds.value));
  }

  lemma CycleKeepsTelling(initial: AlertMap, log: seq<Event>, s: Exporter, input: CycleIn, k: string, r: string)
    requires Tells(initial, log, s.alerts, k, r) && NoStaleSet(s.alerts, EventsOf(input)) && (s.hasMap || input.Succeeds())
    ensures Tells(initial, log + EventsOf(input), Cycle(s, input).alerts, k, r)
  {
    CycleMap(s, input);
    if input.feeds.None? {
      assert log + EventsOf(input) == log;
    } else {
      ProcessingIsRun(s, input);
      EventsKeepTelling(initial, log, Ctx(s.alerts, 0, 0), EventsOf(input), k, r);
      SweepKeepsTelling(initial, log + EventsOf(input), Processing(s, input.feeds.value).alerts, k, r);
    }
  }

  /** Over any run, whatever fails and whatever cleanup deletes, an alert is active exactly when the last event that
      concerns it, in everything listed, sets it; and an alert still held began at its last set. */
  lemma {:induction false} MapAgreesOverRuns(s: Exporter, inputs: seq<CycleIn>, k: string, r: string)
    requires NoStaleOver(s, inputs)
    ensures Tells(s.alerts, LogOf(s.hasMap, inputs), Cycles(s, inputs).alerts, k, r)
  {
    if inputs != [] {
      var n := |inputs| - 1;
      var before := Cycles(s, inputs[..n]);
      var log := LogOf(s.hasMap, inputs[..n]);
      MapAgreesOverRuns(s, inputs[..n], k, r);
      HasMapIffKept(s, inputs[..n]);
      if Kept(s.hasMap, inputs) {
        CycleKeepsTelling(s.alerts, log, before, inputs[n], k, r);
      } else {
        CycleMap(before, inputs[n]);
        assert log + [] == log;
      }
    }
  }

  // ---- Exactly when --------------------------------------------------------------------------

  /** After each of the events the map agrees with the whole log on which alerts are active. */
  ghost predicate AgreesWithin(initial: AlertMap, log: seq<Event>, c: Ctx, evs: seq<Event>) {
    forall j: nat, k, r :: j <= |evs| ==>
      (IsActive(Run(c, evs[..j]).alerts, k, r) <==> LogActive(initial, log + evs[..j], k, r))
  }

  /** The same throughout every cycle whose map is kept. */
  ghost predicate AgreesEverywhere(s: Exporter, inputs: seq<CycleIn>) {
    inputs == [] ||
      var n := |inputs| - 1;
      && AgreesEverywhere(s, inputs[..n])
      && (Kept(s.hasMap, inputs) ==>
            AgreesWithin(s.alerts, LogOf(s.hasMap, inputs[..n]), Ctx(Cycles(s, inputs[..n]).alerts, 0, 0), EventsOf(inputs[n])))
  }

  lemma AgreesWithinIff(initial: AlertMap, log: seq<Event>, c: Ctx, evs: seq<Event>)
    requires forall k, r :: IsActive(c.alerts, k, r) <==> LogActive(initial, log, k, r)
    ensures AgreesWithin(initial, log, c, evs) <==> NoStaleSet(c.alerts, evs)
  {
    forall j: nat, k, r | j <= |evs|
      ensures LogActive(c.alerts, evs[..j], k, r) <==> LogActive(initial, log + evs[..j], k, r)
    {
      LogActiveAppend(initial, log, c.alerts, evs[..j], k, r);
    }
    assert AgreesWithin(initial, log, c, evs) <==> AgreesThroughout(c, evs) by {
      assert forall j: nat, k, r | j <= |evs| ::
        Agrees(c, evs[..j], k, r) == (IsActive(Run(c, evs[..j]).alerts, k, r) <==> LogActive(c.alerts, evs[..j], k, r));
    }
    AgreesIffNoStaleSet(c, evs);
  }

  /** Map and log agree after every event of every cycle exactly when no cycle meets a stale set. */
  lemma {:induction false} AgreesEverywhereIff(s: Exporter, inputs: seq<CycleIn>)
    ensures AgreesEverywhere(s, inputs) <==> NoStaleOver(s, inputs)
  {
    if inputs != [] {
      var n := |inputs| - 1;
      var log := LogOf(s.hasMap, inputs[..n]);
      AgreesEverywhereIff(s, inputs[..n]);
      if NoStaleOver(s, inputs[..n]) {
        forall k, r
          ensures IsActive(Cycles(s, inputs[..n]).alerts, k, r) <==> LogActive(s.alerts, log, k, r)
        {
          MapAgreesOverRuns(s, inputs[..n], k, r);
        }
        AgreesWithinIff(s.alerts, log, Ctx(Cycles(s, inputs[..n]).alerts, 0, 0), EventsOf(inputs[n]));
      }
    }
  }

  // ---- On the log alone ----------------------------------------------------------------------

  lemma StaleInTheLog(initial: AlertMap, log: seq<Event>, alerts: AlertMap, evs: seq<Event>)
    requires forall k, r :: Tells(initial, log, alerts, k, r)
    requires NoStaleSet(initial, log + evs)
    ensures NoStaleSet(alerts, evs)
  {
    forall i | 0 <= i < |evs|
      ensures !Stale(alerts, evs[..i], evs[i])
    {
      assert (log + evs)[..|log| + i] == log + evs[..i] && (log + evs)[|log| + i] == evs[i];
      assert !Stale(initial, log + evs[..i], evs[i]);
      if ActionOf(evs[i].reason).Set? {
        var k, r := Key(evs[i]), ActionOf(evs[i].reason).reason;
        assert Tells(initial, log, alerts, k, r);
        LogActiveAppend(initial, log, alerts, evs[..i], k, r);
        LogStartAppend(initial, log, alerts, evs[..i], k, r);
      }
    }
  }

  /** A log without stale sets is enough, wherever cycles begin and whatever cleanup deletes between them. */
  lemma {:induction false} LogWithoutStaleSets(s: Exporter, inputs: seq<CycleIn>)
    requires NoStaleSet(s.alerts, LogOf(s.hasMap, inputs))
    ensures NoStaleOver(s, inputs)
  {
    if inputs != [] {
      var n := |inputs| - 1;
      var log := LogOf(s.hasMap, inputs[..n]);
      NoStalePrefix(s.alerts, LogOf(s.hasMap, inputs), |log|);
      assert LogOf(s.hasMap, inputs)[..|log|] == log;
      LogWithoutStaleSets(s, inputs[..n]);
      if Kept(s.hasMap, inputs) {
        forall k, r
          ensures Tells(s.alerts, log, Cycles(s, inputs[..n]).alerts, k, r)
        {
          MapAgreesOverRuns(s, inputs[..n], k, r);
        }
        StaleInTheLog(s.alerts, log, Cycles(s, inputs[..n]).alerts, EventsOf(inputs[n]));
      }
    }
  }
}
