/** The live view of alerts: per resource, one entry per alert reason, driven by a stream of events. */
module Alerts {
  import opened Common

  /** Timestamps are ordered instants; the zero instant is the value of an unset timestamp. */
  const ZERO_TIME: int := 0

  datatype AlertInfo = AlertInfo(
    name: string, kind: string, org: string, reason: string, summary: string, startsAt: int, endsAt: Option<int>)
  {
    predicate Active() {
      endsAt.None?
    }
  }

  const BLANK := AlertInfo("", "", "", "", "", ZERO_TIME, None)

  type Reasons = map<string, AlertInfo>
  type AlertMap = map<string, Reasons>

  /** The map together with the cycle's two counters. */
  datatype Ctx = Ctx(alerts: AlertMap, created: nat, resolved: nat)

  /** An event that passed validation, with the organization it was listed for. */
  datatype Event = Event(org: string, kind: string, name: string, reason: string, message: string, time: int)

  function NewAlertKey(org: string, kind: string, name: string): string {
    org + ":" + kind + ":" + name
  }

  function Key(ev: Event): string {
    NewAlertKey(ev.org, ev.kind, ev.name)
  }

  // ---- Which reason does what ----------------------------------------------------------------

  const APP_ERROR := "DeviceApplicationError"
  const APP_DEGRADED := "DeviceApplicationDegraded"
  const APP_HEALTHY := "DeviceApplicationHealthy"
  const CPU_CRITICAL := "DeviceCPUCritical"
  const CPU_WARNING := "DeviceCPUWarning"
  const CPU_NORMAL := "DeviceCPUNormal"
  const MEMORY_CRITICAL := "DeviceMemoryCritical"
  const MEMORY_WARNING := "DeviceMemoryWarning"
  const MEMORY_NORMAL := "DeviceMemoryNormal"
  const DISK_CRITICAL := "DeviceDiskCritical"
  const DISK_WARNING := "DeviceDiskWarning"
  const DISK_NORMAL := "DeviceDiskNormal"
  const DISCONNECTED := "DeviceDisconnected"
  const CONNECTED := "DeviceConnected"
  const DELETED := "ResourceDeleted"
  const DECOMMISSIONED := "DeviceDecommissioned"

  const APP_GROUP := [APP_ERROR, APP_DEGRADED]
  const CPU_GROUP := [CPU_CRITICAL, CPU_WARNING]
  const MEMORY_GROUP := [MEMORY_CRITICAL, MEMORY_WARNING]
  const DISK_GROUP := [DISK_CRITICAL, DISK_WARNING]

  datatype Action = Set(reason: string, group: seq<string>) | Clear(group: seq<string>) | ResolveAll | Ignore

  function ActionOf(reason: string): Action {
    if reason == DELETED || reason == DECOMMISSIONED then ResolveAll
    else if reason in APP_GROUP then Set(reason, APP_GROUP)
    else if reason == APP_HEALTHY then Clear(APP_GROUP)
    else if reason in CPU_GROUP then Set(reason, CPU_GROUP)
    else if reason == CPU_NORMAL then Clear(CPU_GROUP)
    else OtherActionOf(reason)
  }

  function OtherActionOf(reason: string): Action {
    if reason in MEMORY_GROUP then Set(reason, MEMORY_GROUP)
    else if reason == MEMORY_NORMAL then Clear(MEMORY_GROUP)
    else if reason in DISK_GROUP then Set(reason, DISK_GROUP)
    else if reason == DISK_NORMAL then Clear(DISK_GROUP)
    else if reason == DISCONNECTED then Set(DISCONNECTED, [])
    else if reason == CONNECTED then Clear([DISCONNECTED])
    else Ignore
  }

  // ---- One resource --------------------------------------------------------------------------

  /** The active alerts of `m` among `which`. */
  function Closing(m: Reasons, which: set<string>): set<string> {
    set r | r in m && r in which && m[r].Active()
  }

  /** `m` with every active alert among `which` ended at `t`. */
  function CloseAt(m: Reasons, which: set<string>, t: int): Reasons {
    map r | r in m :: if r in which && m[r].Active() then m[r].(endsAt := Some(t)) else m[r]
  }

  function Held(m: Reasons, reason: string): AlertInfo {
    if reason in m then m[reason] else BLANK
  }

  /** Sets an alert, unless the entry already starts at the event's time. */
  function Raise(m: Reasons, ev: Event, reason: string): Reasons {
    if Held(m, reason).startsAt == ev.time then m[reason := Held(m, reason)]
    else m[reason := AlertInfo(ev.name, ev.kind, ev.org, reason, ev.message, ev.time, None)]
  }

  /** How many alerts raising counts as created: one unless the alert was active already or is not set. */
  function Creates(m: Reasons, ev: Event, reason: string): nat {
    if Held(m, reason).startsAt != ev.time && !(reason in m && m[reason].Active()) then 1 else 0
  }

  function Resource(alerts: AlertMap, k: string): Reasons {
    if k in alerts then alerts[k] else map[]
  }

  function CloseAll(c: Ctx, ev: Event, which: set<string>): Ctx {
    var k := Key(ev);
    if k !in c.alerts then c
    else
      var m := c.alerts[k];
      Ctx(c.alerts[k := CloseAt(m, which, ev.time)], c.created, c.resolved + |Closing(m, which)|)
  }

  function SetAlert(c: Ctx, ev: Event, reason: string, group: seq<string>): Ctx {
    var k := Key(ev);
    var m := Resource(c.alerts, k);
    var which := Elements(group) - {reason};
    var m' := CloseAt(m, which, ev.time);
    Ctx(c.alerts[k := Raise(m', ev, reason)], c.created + Creates(m', ev, reason), c.resolved + |Closing(m, which)|)
  }

  /** The effect of one event on the map and the counters. */
  function Process(c: Ctx, ev: Event): Ctx {
    match ActionOf(ev.reason)
    case Ignore => c
    case ResolveAll => CloseAll(c, ev, Resource(c.alerts, Key(ev)).Keys)
    case Clear(group) => CloseAll(c, ev, Elements(group))
    case Set(reason, group) => SetAlert(c, ev, reason, group)
  }

  /** The effect of a list of events, oldest first. */
  function Run(c: Ctx, evs: seq<Event>): Ctx {
    if evs == [] then c else Process(Run(c, evs[..|evs| - 1]), evs[|evs| - 1])
  }

  lemma {:induction false} RunAppend(c: Ctx, a: seq<Event>, b: seq<Event>)
    ensures Run(c, a + b) == Run(Run(c, a), b)
  {
    if b == [] {
      assert a + b == a;
    } else {
      var n := |b| - 1;
      assert (a + b)[..|a + b| - 1] == a + b[..n];
      RunAppend(c, a, b[..n]);
    }
  }

  lemma RunSnoc(c: Ctx, evs: seq<Event>, ev: Event)
    ensures Run(c, evs + [ev]) == Process(Run(c, evs), ev)
  {
    assert (evs + [ev])[..|evs|] == evs;
  }

  // ---- One event, one alert ------------------------------------------------------------------

  function Lookup(alerts: AlertMap, k: string, r: string): Option<AlertInfo> {
    if k in alerts && r in alerts[k] then Some(alerts[k][r]) else None
  }

  predicate IsActive(alerts: AlertMap, k: string, r: string) {
    Lookup(alerts, k, r).Some? && Lookup(alerts, k, r).value.Active()
  }

  /** The event sets the alert (k, r). */
  predicate Sets(ev: Event, k: string, r: string) {
    Key(ev) == k && ActionOf(ev.reason).Set? && ActionOf(ev.reason).reason == r
  }

  /** The event ends the alert (k, r) if it is active. */
  predicate Closes(ev: Event, k: string, r: string) {
    && Key(ev) == k && !Sets(ev, k, r)
    && match ActionOf(ev.reason)
       case Ignore => false
       case ResolveAll => true
       case Clear(group) => r in group
       case Set(_, group) => r in group
  }

  predicate Touches(ev: Event, k: string, r: string) {
    Sets(ev, k, r) || Closes(ev, k, r)
  }

  function Ended(info: Option<AlertInfo>, t: int): Option<AlertInfo> {
    if info.Some? && info.value.Active() then Some(info.value.(endsAt := Some(t))) else info
  }

  /** What the event makes of one alert. */
  predicate Effect(ev: Event, k: string, r: string, before: Option<AlertInfo>, after: Option<AlertInfo>) {
    if Sets(ev, k, r) then
      var held := if before.Some? then before.value else BLANK;
      after == Some(if held.startsAt == ev.time then held
                    else AlertInfo(ev.name, ev.kind, ev.org, r, ev.message, ev.time, None))
    else if Closes(ev, k, r) then after == Ended(before, ev.time)
    else after == before
  }

  lemma ProcessAt(c: Ctx, ev: Event, k: string, r: string)
    ensures Effect(ev, k, r, Lookup(c.alerts, k, r), Lookup(Process(c, ev).alerts, k, r))
  {
  }
}
