/** The alert map against the event log it was built from. */
module AlertLog {
  import opened Common
  import opened Alerts

  // ---- Reading the log -----------------------------------------------------------------------

  /** The last event that sets or ends the alert, or -1. */
  function LastTouch(evs: seq<Event>, k: string, r: string): (i: int)
    ensures -1 <= i < |evs|
  {
    if evs == [] then -1
    else if Touches(evs[|evs| - 1], k, r) then |evs| - 1
    else LastTouch(evs[..|evs| - 1], k, r)
  }

  /** The last event that sets the alert, or -1. */
  function LastSet(evs: seq<Event>, k: string, r: string): (i: int)
    ensures -1 <= i < |evs|
  {
    if evs == [] then -1
    else if Sets(evs[|evs| - 1], k, r) then |evs| - 1
    else LastSet(evs[..|evs| - 1], k, r)
  }

  /** The first event at or after `from` that ends the alert, or the length of the log. */
  function FirstClose(evs: seq<Event>, k: string, r: string, from: nat): (i: nat)
    requires from <= |evs|
    ensures from <= i <= |evs|
    decreases |evs| - from
  {
    if from == |evs| || Closes(evs[from], k, r) then from else FirstClose(evs, k, r, from + 1)
  }

  lemma {:induction false} LastTouchIsLast(evs: seq<Event>, k: string, r: string)
    ensures var i := LastTouch(evs, k, r);
      && (i >= 0 ==> Touches(evs[i], k, r))
      && forall j :: i < j < |evs| ==> !Touches(evs[j], k, r)
  {
    if evs != [] {
      LastTouchIsLast(evs[..|evs| - 1], k, r);
    }
  }

  lemma {:induction false} LastSetIsLast(evs: seq<Event>, k: string, r: string)
    ensures var i := LastSet(evs, k, r);
      && (i >= 0 ==> Sets(evs[i], k, r))
      && forall j :: i < j < |evs| ==> !Sets(evs[j], k, r)
  {
    if evs != [] {
      LastSetIsLast(evs[..|evs| - 1], k, r);
    }
  }

  lemma {:induction false} FirstCloseIsFirst(evs: seq<Event>, k: string, r: string, from: nat)
    requires from <= |evs|
    ensures var i := FirstClose(evs, k, r, from);
      && (i < |evs| ==> Closes(evs[i], k, r))
      && forall j :: from <= j < i ==> !Closes(evs[j], k, r)
    decreases |evs| - from
  {
    if from < |evs| && !Closes(evs[from], k, r) {
      FirstCloseIsFirst(evs, k, r, from + 1);
    }
  }

  /** By the log, the alert is active: its last event sets it, or it has none and was active before. */
  predicate LogActive(initial: AlertMap, evs: seq<Event>, k: string, r: string) {
    var i := LastTouch(evs, k, r);
    if i >= 0 then Sets(evs[i], k, r) else IsActive(initial, k, r)
  }

  function TimeOf(evs: seq<Event>, i: nat): Option<int> {
    if i < |evs| then Some(evs[i].time) else None
  }

  /** The alert's two timestamps read off the log. With a set in the log they are the last set's time and
      the time of the first event after it that ends the alert; without one the start is the one held before,
      and an alert that was active ends at the first event that ends it. */
  predicate LogTimes(initial: AlertMap, evs: seq<Event>, k: string, r: string, found: Option<AlertInfo>) {
    var i := LastSet(evs, k, r);
    var held := Lookup(initial, k, r);
    if i >= 0 then
      && found.Some? && found.value.startsAt == evs[i].time
      && found.value.endsAt == TimeOf(evs, FirstClose(evs, k, r, i + 1))
    else if held.None? then found.None?
    else
      && found.Some? && found.value.startsAt == held.value.startsAt
      && found.value.endsAt == if held.value.Active() then TimeOf(evs, FirstClose(evs, k, r, 0)) else held.value.endsAt
  }

  // ---- When the map can disagree -------------------------------------------------------------

  /** The start of the alert's last run by the log: the time of its last set, else the start held before. */
  function LogStart(initial: AlertMap, evs: seq<Event>, k: string, r: string): Option<int> {
    var i := LastSet(evs, k, r);
    var held := Lookup(initial, k, r);
    if i >= 0 then Some(evs[i].time) else if held.Some? then Some(held.value.startsAt) else None
  }

  /** The event sets an alert that by the log before it has ended, and does so at the very time at which that alert
      last started: the exporter takes it for one it has already applied. */
  predicate Stale(initial: AlertMap, before: seq<Event>, ev: Event) {
    && ActionOf(ev.reason).Set?
    && var k, r := Key(ev), ActionOf(ev.reason).reason;
       !LogActive(initial, before, k, r) && LogStart(initial, before, k, r) == Some(ev.time)
  }

  /** A condition on the log and the initial map alone. */
  predicate NoStaleSet(initial: AlertMap, evs: seq<Event>) {
    forall i :: 0 <= i < |evs| ==> !Stale(initial, evs[..i], evs[i])
  }

  lemma NoStalePrefix(initial: AlertMap, evs: seq<Event>, n: nat)
    requires NoStaleSet(initial, evs) && n <= |evs|
    ensures NoStaleSet(initial, evs[..n])
  {
    forall i | 0 <= i < n
      ensures !Stale(initial, evs[..n][..i], evs[..n][i])
    {
      assert evs[..n][..i] == evs[..i];
    }
  }

  lemma {:induction false} FirstCloseSnoc(evs: seq<Event>, k: string, r: string, from: nat)
    requires evs != [] && from < |evs|
    ensures var n := |evs| - 1;
      FirstClose(evs, k, r, from) ==
        if FirstClose(evs[..n], k, r, from) < n then FirstClose(evs[..n], k, r, from)
        else if Closes(evs[n], k, r) then n else |evs|
    decreases |evs| - from
  {
    var n := |evs| - 1;
    if from < n && !Closes(evs[from], k, r) {
      FirstCloseSnoc(evs, k, r, from + 1);
    }
  }

  /** The map holds the alert as the log tells it. */
  predicate InStep(initial: AlertMap, evs: seq<Event>, k: string, r: string, found: Option<AlertInfo>) {
    && (found.Some? && found.value.Active() <==> LogActive(initial, evs, k, r))
    && LogTimes(initial, evs, k, r, found)
  }

  lemma TimesAfterSet(initial: AlertMap, evs: seq<Event>, k: string, r: string, found: Option<AlertInfo>)
    requires evs != [] && Sets(evs[|evs| - 1], k, r)
    requires found.Some? && found.value.Active() && found.value.startsAt == evs[|evs| - 1].time
    ensures LogTimes(initial, evs, k, r, found)
  {
    assert FirstClose(evs, k, r, |evs|) == |evs|;
  }

  lemma TimesAfterOther(initial: AlertMap, evs: seq<Event>, k: string, r: string, before: Option<AlertInfo>)
    requires evs != [] && !Sets(evs[|evs| - 1], k, r)
    requires LogTimes(initial, evs[..|evs| - 1], k, r, before)
    ensures LogTimes(initial, evs, k, r, if Closes(evs[|evs| - 1], k, r) then Ended(before, evs[|evs| - 1].time) else before)
  {
    var n := |evs| - 1;
    var i := LastSet(evs[..n], k, r);
    assert LastSet(evs, k, r) == i;
    FirstCloseSnoc(evs, k, r, i + 1);
    assert i >= 0 ==> evs[..n][i] == evs[i];
    var j := FirstClose(evs[..n], k, r, i + 1);
    assert j < n ==> TimeOf(evs, j) == TimeOf(evs[..n], j);
  }

  /** One more event keeps map and log in step, unless it is a stale set. */
  lemma StepKeepsInStep(initial: AlertMap, evs: seq<Event>, k: string, r: string, before: Option<AlertInfo>, after: Option<AlertInfo>)
    requires evs != [] && Effect(evs[|evs| - 1], k, r, before, after)
    requires InStep(initial, evs[..|evs| - 1], k, r, before)
    requires !Stale(initial, evs[..|evs| - 1], evs[|evs| - 1])
    ensures InStep(initial, evs, k, r, after)
  {
    if Sets(evs[|evs| - 1], k, r) {
      TimesAfterSet(initial, evs, k, r, after);
    } else {
      TimesAfterOther(initial, evs, k, r, before);
    }
  }

  lemma {:induction false} RunInStep(c: Ctx, evs: seq<Event>, k: string, r: string)
    requires NoStaleSet(c.alerts, evs)
    ensures InStep(c.alerts, evs, k, r, Lookup(Run(c, evs).alerts, k, r))
  {
    if evs != [] {
      var n := |evs| - 1;
      NoStalePrefix(c.alerts, evs, n);
      RunInStep(c, evs[..n], k, r);
      ProcessAt(Run(c, evs[..n]), evs[n], k, r);
      StepKeepsInStep(c.alerts, evs, k, r, Lookup(Run(c, evs[..n]).alerts, k, r), Lookup(Run(c, evs).alerts, k, r));
    }
  }

  /** The map agrees with the log on every alert, on whether it is active and on both timestamps. */
  lemma MapAgreesWithLog(c: Ctx, evs: seq<Event>, k: string, r: string)
    requires NoStaleSet(c.alerts, evs)
    ensures IsActive(Run(c, evs).alerts, k, r) <==> LogActive(c.alerts, evs, k, r)
    ensures LogTimes(c.alerts, evs, k, r, Lookup(Run(c, evs).alerts, k, r))
  {
    RunInStep(c, evs, k, r);
  }

  predicate Agrees(c: Ctx, evs: seq<Event>, k: string, r: string) {
    IsActive(Run(c, evs).alerts, k, r) <==> LogActive(c.alerts, evs, k, r)
  }

  ghost predicate AgreesThroughout(c: Ctx, evs: seq<Event>) {
    forall n: nat, k, r :: n <= |evs| ==> Agrees(c, evs[..n], k, r)
  }

  /** The map agrees with the log after every event exactly when no set in it is stale. */
  lemma AgreesIffNoStaleSet(c: Ctx, evs: seq<Event>)
    ensures AgreesThroughout(c, evs) <==> NoStaleSet(c.alerts, evs)
  {
    if NoStaleSet(c.alerts, evs) {
      forall n: nat, k, r | n <= |evs|
        ensures Agrees(c, evs[..n], k, r)
      {
        NoStalePrefix(c.alerts, evs, n);
        MapAgreesWithLog(c, evs[..n], k, r);
      }
    } else {
      var i := FirstStale(c.alerts, evs);
      StaleSetIsLost(c, evs[..i], evs[i]);
      assert evs[..i + 1] == evs[..i] + [evs[i]];
    }
  }

  lemma {:induction false} FirstStale(initial: AlertMap, evs: seq<Event>) returns (i: nat)
    requires !NoStaleSet(initial, evs)
    ensures i < |evs| && Stale(initial, evs[..i], evs[i]) && NoStaleSet(initial, evs[..i])
  {
    var n := |evs| - 1;
    if NoStaleSet(initial, evs[..n]) {
      i := n;
      forall j | 0 <= j < n
        ensures !Stale(initial, evs[..j], evs[j])
      {
        assert evs[..n][..j] == evs[..j] && evs[..n][j] == evs[j];
      }
    } else {
      i := FirstStale(initial, evs[..n]);
      assert evs[..n][..i] == evs[..i];
    }
  }

  /** A stale set meets an ended entry that starts at its own time, and leaves it. */
  lemma StaleSetDoesNothing(initial: AlertMap, before: seq<Event>, ev: Event, found: Option<AlertInfo>, after: Option<AlertInfo>)
    requires Stale(initial, before, ev)
    requires InStep(initial, before, Key(ev), ActionOf(ev.reason).reason, found)
    requires Effect(ev, Key(ev), ActionOf(ev.reason).reason, found, after)
    ensures after == found && found.Some? && !found.value.Active()
  {
  }

  lemma SetIsLastTouch(initial: AlertMap, before: seq<Event>, ev: Event)
    requires ActionOf(ev.reason).Set?
    ensures LogActive(initial, before + [ev], Key(ev), ActionOf(ev.reason).reason)
  {
  }

  lemma StaysEnded(c: Ctx, before: seq<Event>, ev: Event)
    requires NoStaleSet(c.alerts, before) && Stale(c.alerts, before, ev)
    ensures !IsActive(Process(Run(c, before), ev).alerts, Key(ev), ActionOf(ev.reason).reason)
  {
    var p := Run(c, before);
    var k, r := Key(ev), ActionOf(ev.reason).reason;
    RunInStep(c, before, k, r);
    ProcessAt(p, ev, k, r);
    StaleSetDoesNothing(c.alerts, before, ev, Lookup(p.alerts, k, r), Lookup(Process(p, ev).alerts, k, r));
  }

  lemma StaleSetIsLost(c: Ctx, before: seq<Event>, ev: Event)
    requires NoStaleSet(c.alerts, before) && Stale(c.alerts, before, ev)
    ensures !Agrees(c, before + [ev], Key(ev), ActionOf(ev.reason).reason)
  {
    StaysEnded(c, before, ev);
    SetIsLastTouch(c.alerts, before, ev);
    RunSnoc(c, before, ev);
  }

  // ---- A caller's condition ------------------------------------------------------------------

  /** Per resource the timestamps strictly increase and exceed every start held for it. */
  ghost predicate FreshTimes(alerts: AlertMap, evs: seq<Event>) {
    && (forall i, j :: 0 <= i < j < |evs| && Key(evs[i]) == Key(evs[j]) ==> evs[i].time < evs[j].time)
    && (forall i, r :: 0 <= i < |evs| && Lookup(alerts, Key(evs[i]), r).Some? ==>
          Lookup(alerts, Key(evs[i]), r).value.startsAt < evs[i].time)
  }

  lemma FreshTimesAreNeverStale(initial: AlertMap, evs: seq<Event>)
    requires FreshTimes(initial, evs)
    ensures NoStaleSet(initial, evs)
  {
    forall i | 0 <= i < |evs|
      ensures !Stale(initial, evs[..i], evs[i])
    {
      if ActionOf(evs[i].reason).Set? {
        var k, r := Key(evs[i]), ActionOf(evs[i].reason).reason;
        LastSetIsLast(evs[..i], k, r);
      }
    }
  }

  // ---- Repetition ----------------------------------------------------------------------------

  /** Applying one event twice in a row is the same as applying it once. */
  lemma ImmediateRepeatIsHarmless(c: Ctx, ev: Event)
    ensures Process(Process(c, ev), ev) == Process(c, ev)
  {
    var once := Process(c, ev);
    var twice := Process(once, ev);
    var k := Key(ev);
    match ActionOf(ev.reason)
    case Ignore =>
    case ResolveAll =>
      NothingLeftToClose(Resource(c.alerts, k), Resource(c.alerts, k).Keys, ev.time);
    case Clear(group) =>
      NothingLeftToClose(Resource(c.alerts, k), Elements(group), ev.time);
    case Set(reason, group) =>
      var which := Elements(group) - {reason};
      var m := CloseAt(Resource(c.alerts, k), which, ev.time);
      NothingLeftToClose(Resource(c.alerts, k), which, ev.time);
      var m' := Raise(m, ev, reason);
      assert Closing(m', which) == {};
      assert CloseAt(m', which, ev.time) == m';
      assert once.alerts[k] == m' && Raise(m', ev, reason) == m';
  }

  lemma NothingLeftToClose(m: Reasons, which: set<string>, t: int)
    ensures Closing(CloseAt(m, which, t), which) == {}
    ensures CloseAt(CloseAt(m, which, t), which, t) == CloseAt(m, which, t)
    ensures CloseAt(m, which, t).Keys == m.Keys
  {
    assert Closing(CloseAt(m, which, t), which) == {};
  }

  /** Replaying a list is not harmless: after a disconnect has ended, the repeated disconnect is stale, so the
      device stays resolved although its last event disconnects it. */
  lemma ReplayLosesADisconnect(org: string, kind: string, name: string)
    ensures var up := Event(org, kind, name, CONNECTED, "", 1);
      var down := Event(org, kind, name, DISCONNECTED, "", 2);
      var c := Ctx(map[], 0, 0);
      && IsActive(Run(c, [up, down]).alerts, Key(down), DISCONNECTED)
      && !IsActive(Run(c, [up, down] + [up, down]).alerts, Key(down), DISCONNECTED)
      && !NoStaleSet(map[], [up, down] + [up, down])
  {
    var up := Event(org, kind, name, CONNECTED, "", 1);
    var down := Event(org, kind, name, DISCONNECTED, "", 2);
    var c := Ctx(map[], 0, 0);
    UpDown(c, up, down);
    var c2 := Run(c, [up, down]);
    UpDown(c2, up, down);
    RunAppend(c, [up, down], [up, down]);
    var evs := [up, down] + [up, down];
    assert evs[..3] == [up, down] + [up];
    ActionsOfConnection();
    assert evs[..3][..2] == [up, down];
    assert LastTouch(evs[..3], Key(down), DISCONNECTED) == 2 && LastSet(evs[..3], Key(down), DISCONNECTED) == 1;
    assert Stale(map[], evs[..3], evs[3]);
  }

  /** A connect and a later disconnect: the alert is active afterwards, unless the disconnect is stale. */
  lemma UpDown(c: Ctx, up: Event, down: Event)
    requires up.reason == CONNECTED && down.reason == DISCONNECTED && Key(up) == Key(down) && down.time != ZERO_TIME
    ensures var before := Lookup(c.alerts, Key(down), DISCONNECTED);
      && Lookup(Run(c, [up]).alerts, Key(down), DISCONNECTED) == Ended(before, up.time)
      && var after := Lookup(Run(c, [up, down]).alerts, Key(down), DISCONNECTED);
         if before.Some? && before.value.startsAt == down.time then after == Ended(before, up.time)
         else after.Some? && after.value.Active() && after.value.startsAt == down.time
  {
    var k := Key(down);
    ActionsOfConnection();
    RunTwo(c, up, down);
    ProcessAt(c, up, k, DISCONNECTED);
    ProcessAt(Process(c, up), down, k, DISCONNECTED);
    assert [up][..0] == [];
  }

  lemma ActionsOfConnection()
    ensures ActionOf(CONNECTED) == Clear([DISCONNECTED]) && ActionOf(DISCONNECTED) == Set(DISCONNECTED, [])
  {
  }

  lemma RunTwo(c: Ctx, a: Event, b: Event)
    ensures Run(c, [a, b]) == Process(Process(c, a), b)
  {
    assert [a, b][..1] == [a] && [a][..0] == [];
    assert Run(c, [a]) == Process(Run(c, []), a);
  }
}
