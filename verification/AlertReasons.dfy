/** What each event reason does to the alerts of its resource, told on the reasons themselves. */
module AlertReasons {
  import opened Common
  import opened Alerts
  import opened AlertCycle

  /** What an alert is about. At most one alert about a condition is active on a resource. */
  datatype Condition = Application | Cpu | Memory | Disk | Connection

  /** The nine reasons that raise an alert, and its condition. */
  function Raised(reason: string): Option<Condition> {
    match reason
    case "DeviceApplicationError" => Some(Application)
    case "DeviceApplicationDegraded" => Some(Application)
    case "DeviceCPUCritical" => Some(Cpu)
    case "DeviceCPUWarning" => Some(Cpu)
    case "DeviceMemoryCritical" => Some(Memory)
    case "DeviceMemoryWarning" => Some(Memory)
    case "DeviceDiskCritical" => Some(Disk)
    case "DeviceDiskWarning" => Some(Disk)
    case "DeviceDisconnected" => Some(Connection)
    case _ => None
  }

  /** The five reasons that tell that a condition is over. */
  function Recovered(reason: string): Option<Condition> {
    match reason
    case "DeviceApplicationHealthy" => Some(Application)
    case "DeviceCPUNormal" => Some(Cpu)
    case "DeviceMemoryNormal" => Some(Memory)
    case "DeviceDiskNormal" => Some(Disk)
    case "DeviceConnected" => Some(Connection)
    case _ => None
  }

  /** The two reasons after which the resource is gone. */
  predicate Terminal(reason: string) {
    reason == "ResourceDeleted" || reason == "DeviceDecommissioned"
  }

  // ---- The dispatch --------------------------------------------------------------------------

  function AlertsAbout(condition: Condition): seq<string> {
    match condition
    case Application => APP_GROUP
    case Cpu => CPU_GROUP
    case Memory => MEMORY_GROUP
    case Disk => DISK_GROUP
    case Connection => [DISCONNECTED]
  }

  lemma AboutIsRaised(condition: Condition, r: string)
    ensures r in AlertsAbout(condition) <==> Raised(r) == Some(condition)
  {
  }

  lemma RaisedAction(reason: string)
    requires Raised(reason).Some?
    ensures ActionOf(reason) ==
      Set(reason, if Raised(reason).value == Connection then [] else AlertsAbout(Raised(reason).value))
    ensures Recovered(reason).None? && !Terminal(reason)
  {
  }

  lemma RaisedIsSet(reason: string, r: string)
    requires Raised(reason).Some?
    ensures ActionOf(reason).Set? && ActionOf(reason).reason == reason
    ensures r != reason ==> (r in ActionOf(reason).group <==> Raised(r) == Raised(reason))
    ensures Recovered(reason).None? && !Terminal(reason)
  {
    RaisedAction(reason);
    AboutIsRaised(Raised(reason).value, r);
    AboutIsRaised(Raised(reason).value, reason);
  }

  lemma RecoveredAction(reason: string)
    requires Recovered(reason).Some?
    ensures ActionOf(reason) == Clear(AlertsAbout(Recovered(reason).value)) && !Terminal(reason)
  {
  }

  lemma RecoveredIsClear(reason: string, r: string)
    requires Recovered(reason).Some?
    ensures ActionOf(reason).Clear? && (r in ActionOf(reason).group <==> Raised(r) == Recovered(reason))
    ensures !Terminal(reason)
  {
    RecoveredAction(reason);
    AboutIsRaised(Recovered(reason).value, r);
  }

  lemma OthersDoNothing(reason: string)
    requires Raised(reason).None? && Recovered(reason).None?
    ensures ActionOf(reason) == if Terminal(reason) then ResolveAll else Ignore
  {
  }

  // ---- One event, one alert ------------------------------------------------------------------

  /** An alert that was active has ended at `t`; any other is as it was. */
  predicate Stopped(before: Option<AlertInfo>, after: Option<AlertInfo>, t: int) {
    if before.Some? && before.value.endsAt.None? then after == Some(before.value.(endsAt := Some(t)))
    else after == before
  }

  /** The alert is active as the event tells it, unless an entry is held that starts at the event's own time; then it
      is as it was. An absent entry counts as one that starts at the zero time. */
  predicate Started(before: Option<AlertInfo>, after: Option<AlertInfo>, ev: Event) {
    if before.Some? && before.value.startsAt == ev.time then after == before
    else if before.None? && ev.time == 0 then after == Some(AlertInfo("", "", "", "", "", 0, None))
    else after == Some(AlertInfo(ev.name, ev.kind, ev.org, ev.reason, ev.message, ev.time, None))
  }

  /** What an event makes of any alert: its own is started, others about the same condition are stopped, recovery stops
      all alerts about the condition and a terminal event all of the resource; nothing else changes, and nothing on
      another resource. */
  predicate Does(ev: Event, k: string, r: string, before: Option<AlertInfo>, after: Option<AlertInfo>) {
    if k != ev.org + ":" + ev.kind + ":" + ev.name then after == before
    else if Terminal(ev.reason) then Stopped(before, after, ev.time)
    else if Recovered(ev.reason).Some? then
      if Raised(r) == Recovered(ev.reason) then Stopped(before, after, ev.time) else after == before
    else if Raised(ev.reason).Some? then
      if r == ev.reason then Started(before, after, ev)
      else if Raised(r) == Raised(ev.reason) then Stopped(before, after, ev.time)
      else after == before
    else after == before
  }

  lemma EventDoes(c: Ctx, ev: Event, k: string, r: string)
    ensures Does(ev, k, r, Lookup(c.alerts, k, r), Lookup(Process(c, ev).alerts, k, r))
  {
    ProcessAt(c, ev, k, r);
    if Raised(ev.reason).Some? {
      RaisedIsSet(ev.reason, r);
    } else if Recovered(ev.reason).Some? {
      RecoveredIsClear(ev.reason, r);
    } else {
      OthersDoNothing(ev.reason);
    }
  }

  // ---- What holds afterwards -----------------------------------------------------------------

  /** After a recovery no alert about the condition is active on the resource, and every other alert is as before. */
  lemma RecoveryClears(c: Ctx, ev: Event)
    requires Recovered(ev.reason).Some?
    ensures var c' := Process(c, ev);
      && (forall r :: Raised(r) == Recovered(ev.reason) ==> !IsActive(c'.alerts, Key(ev), r))
      && (forall k, r :: k != Key(ev) || Raised(r) != Recovered(ev.reason) ==> Lookup(c'.alerts, k, r) == Lookup(c.alerts, k, r))
  {
    var c' := Process(c, ev);
    RecoveredIsClear(ev.reason, "");
    forall k, r
      ensures k == Key(ev) && Raised(r) == Recovered(ev.reason) ==> !IsActive(c'.alerts, k, r)
      ensures k != Key(ev) || Raised(r) != Recovered(ev.reason) ==> Lookup(c'.alerts, k, r) == Lookup(c.alerts, k, r)
    {
      EventDoes(c, ev, k, r);
    }
  }

  /** After a terminal event no alert of the resource is active, and no other resource has changed. */
  lemma TerminalClears(c: Ctx, ev: Event)
    requires Terminal(ev.reason)
    ensures var c' := Process(c, ev);
      && (forall r :: !IsActive(c'.alerts, Key(ev), r))
      && (forall k, r :: k != Key(ev) ==> Lookup(c'.alerts, k, r) == Lookup(c.alerts, k, r))
  {
    var c' := Process(c, ev);
    forall k, r
      ensures k == Key(ev) ==> !IsActive(c'.alerts, k, r)
      ensures k != Key(ev) ==> Lookup(c'.alerts, k, r) == Lookup(c.alerts, k, r)
    {
      EventDoes(c, ev, k, r);
    }
  }

  /** After a raising event its own alert is the only active one about its condition, unless the entry held starts at
      the event's own time; alerts about other conditions are as before. */
  lemma RaisingActivates(c: Ctx, ev: Event)
    requires Raised(ev.reason).Some?
    ensures var c' := Process(c, ev);
      var held := Lookup(c.alerts, Key(ev), ev.reason);
      && (IsActive(c'.alerts, Key(ev), ev.reason) <==> !(held.Some? && !held.value.Active() && held.value.startsAt == ev.time))
      && (forall r :: r != ev.reason && Raised(r) == Raised(ev.reason) ==> !IsActive(c'.alerts, Key(ev), r))
      && (forall k, r :: k != Key(ev) || Raised(r) != Raised(ev.reason) ==> Lookup(c'.alerts, k, r) == Lookup(c.alerts, k, r))
  {
    var c' := Process(c, ev);
    RaisedIsSet(ev.reason, "");
    EventDoes(c, ev, Key(ev), ev.reason);
    forall k, r
      ensures k == Key(ev) && r != ev.reason && Raised(r) == Raised(ev.reason) ==> !IsActive(c'.alerts, k, r)
      ensures k != Key(ev) || Raised(r) != Raised(ev.reason) ==> Lookup(c'.alerts, k, r) == Lookup(c.alerts, k, r)
    {
      EventDoes(c, ev, k, r);
    }
  }

  // ---- From the event as listed --------------------------------------------------------------

  /** The name shows something. */
  predicate Visible(name: string) {
    exists i :: 0 <= i < |name| && '!' <= name[i] <= '~'
  }

  predicate OnlyBlanks(name: string) {
    forall i :: 0 <= i < |name| ==> name[i] == ' ' || name[i] == '\t' || name[i] == '\r' || name[i] == '\n'
  }

  lemma WhatIsUsable(raw: RawEvent)
    ensures raw.time.Some? && Visible(raw.name) ==> IsUsable(raw)
    ensures raw.time.None? || OnlyBlanks(raw.name) ==> !IsUsable(raw)
  {
    if Visible(raw.name) {
      var i :| 0 <= i < |raw.name| && '!' <= raw.name[i] <= '~';
      assert !IsSpace(raw.name[i]);
    }
  }

  /** A usable event as it is listed takes effect with its own fields; any other does nothing. */
  lemma ListedEventDoes(c: Ctx, org: string, raw: RawEvent, k: string, r: string)
    ensures var before, after := Lookup(c.alerts, k, r), Lookup(Run(c, UsableEvents(org, [raw])).alerts, k, r);
      if IsUsable(raw) then Does(Event(org, raw.kind, raw.name, raw.reason, raw.message, raw.time.value), k, r, before, after)
      else after == before
  {
    assert [raw][..0] == [];
    if IsUsable(raw) {
      var ev := ToEvent(org, raw);
      assert UsableEvents(org, [raw]) == [] + [ev];
      RunSnoc(c, [], ev);
      EventDoes(c, ev, k, r);
    }
  }
}
