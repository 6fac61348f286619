/** What every event keeps: exclusive groups, self-describing entries and the balance of the counters. */
module AlertState {
  import opened Common
  import opened Alerts
  import opened AlertLog

  // ---- Exclusive groups ----------------------------------------------------------------------

  predicate SameGroup(r: string, q: string) {
    || (r in APP_GROUP && q in APP_GROUP) || (r in CPU_GROUP && q in CPU_GROUP)
    || (r in MEMORY_GROUP && q in MEMORY_GROUP) || (r in DISK_GROUP && q in DISK_GROUP)
  }

  /** A resource has at most one active alert of each exclusive group. */
  ghost predicate Exclusive(alerts: AlertMap) {
    forall k, r, q :: SameGroup(r, q) && r != q ==> !(IsActive(alerts, k, r) && IsActive(alerts, k, q))
  }

  lemma SettingClosesTheGroup(ev: Event, k: string, r: string, q: string)
    requires SameGroup(r, q) && r != q && Sets(ev, k, r)
    ensures Closes(ev, k, q)
  {
  }

  lemma ProcessKeepsExclusive(c: Ctx, ev: Event)
    requires Exclusive(c.alerts)
    ensures Exclusive(Process(c, ev).alerts)
  {
    forall k, r, q | SameGroup(r, q) && r != q
      ensures !(IsActive(Process(c, ev).alerts, k, r) && IsActive(Process(c, ev).alerts, k, q))
    {
      ProcessAt(c, ev, k, r);
      ProcessAt(c, ev, k, q);
      assert !(IsActive(c.alerts, k, r) && IsActive(c.alerts, k, q));
      if Sets(ev, k, r) {
        SettingClosesTheGroup(ev, k, r, q);
      } else if Sets(ev, k, q) {
        SettingClosesTheGroup(ev, k, q, r);
      }
    }
  }

  // ---- Self-describing entries ---------------------------------------------------------------

  /** Every entry's reason is its inner key, and its org, kind and name rebuild its outer key. */
  ghost predicate WellFormed(alerts: AlertMap) {
    forall k, r :: Lookup(alerts, k, r).Some? ==>
      var info := Lookup(alerts, k, r).value;
      info.reason == r && NewAlertKey(info.org, info.kind, info.name) == k
  }

  /** One event keeps entries self-describing exactly when it is not a phantom. */
  lemma ProcessKeepsWellFormed(c: Ctx, ev: Event)
    requires WellFormed(c.alerts)
    ensures WellFormed(Process(c, ev).alerts) <==> !Phantom(c.alerts, ev)
  {
    if Phantom(c.alerts, ev) {
      var k, r := Key(ev), ActionOf(ev.reason).reason;
      ProcessAt(c, ev, k, r);
      SetsANamedAlert(ev, k, r);
      assert Lookup(Process(c, ev).alerts, k, r) == Some(BLANK);
    } else {
      forall k, r | Lookup(Process(c, ev).alerts, k, r).Some?
        ensures var info := Lookup(Process(c, ev).alerts, k, r).value;
          info.reason == r && NewAlertKey(info.org, info.kind, info.name) == k
      {
        ProcessAt(c, ev, k, r);
      }
    }
  }

  /** Every entry's reason is its inner key, or blank as a set at the zero time leaves it; no inner key is blank. */
  ghost predicate NamedOrBlank(alerts: AlertMap) {
    forall k, r :: Lookup(alerts, k, r).Some? ==>
      r != "" && (Lookup(alerts, k, r).value.reason == r || Lookup(alerts, k, r).value.reason == "")
  }

  lemma SetsANamedAlert(ev: Event, k: string, r: string)
    requires Sets(ev, k, r)
    ensures r != ""
  {
  }

  lemma ProcessKeepsNamedOrBlank(c: Ctx, ev: Event)
    requires NamedOrBlank(c.alerts)
    ensures NamedOrBlank(Process(c, ev).alerts)
  {
    forall k, r | Lookup(Process(c, ev).alerts, k, r).Some?
      ensures var reason := Lookup(Process(c, ev).alerts, k, r).value.reason;
        r != "" && (reason == r || reason == "")
    {
      ProcessAt(c, ev, k, r);
      if Sets(ev, k, r) {
        SetsANamedAlert(ev, k, r);
      }
    }
  }

  /** Processing adds entries and rewrites them but never deletes one. */
  lemma ProcessDeletesNothing(c: Ctx, ev: Event, k: string, r: string)
    requires Lookup(c.alerts, k, r).Some?
    ensures Lookup(Process(c, ev).alerts, k, r).Some?
  {
    ProcessAt(c, ev, k, r);
  }

  /** All of this holds over any list of events, except that self-describing entries need a log
      without first sets at the zero time. */
  lemma {:induction false} RunKeepsState(c: Ctx, evs: seq<Event>)
    ensures Exclusive(c.alerts) ==> Exclusive(Run(c, evs).alerts)
    ensures NamedOrBlank(c.alerts) ==> NamedOrBlank(Run(c, evs).alerts)
    ensures WellFormed(c.alerts) && Phantoms(c.alerts, evs) == 0 ==> WellFormed(Run(c, evs).alerts)
    ensures forall k, r :: Lookup(c.alerts, k, r).Some? ==> Lookup(Run(c, evs).alerts, k, r).Some?
  {
    if evs != [] {
      var n := |evs| - 1;
      var p := Run(c, evs[..n]);
      RunKeepsState(c, evs[..n]);
      if Exclusive(p.alerts) {
        ProcessKeepsExclusive(p, evs[n]);
      }
      if NamedOrBlank(p.alerts) {
        ProcessKeepsNamedOrBlank(p, evs[n]);
      }
      if WellFormed(p.alerts) && !FirstSetAtZero(c.alerts, evs[..n], evs[n]) {
        PhantomIffFirstSet(c, evs[..n], evs[n]);
        ProcessKeepsWellFormed(p, evs[n]);
      }
      forall k, r | Lookup(c.alerts, k, r).Some?
        ensures Lookup(Run(c, evs).alerts, k, r).Some?
      {
        ProcessDeletesNothing(p, evs[n], k, r);
      }
    }
  }

  // ---- The balance of the counters -----------------------------------------------------------

  function ActivePairs(alerts: AlertMap): set<(string, string)> {
    set k, r | k in alerts && r in alerts[k] && alerts[k][r].Active() :: (k, r)
  }

  function AllPairs(alerts: AlertMap): set<(string, string)> {
    set k, r | k in alerts && r in alerts[k] :: (k, r)
  }

  function PairsOf(k: string, rs: set<string>): set<(string, string)> {
    set r | r in rs :: (k, r)
  }

  lemma {:induction false} PairsOfSize(k: string, rs: set<string>)
    ensures |PairsOf(k, rs)| == |rs|
  {
    if rs != {} {
      var r :| r in rs;
      PairsOfSize(k, rs - {r});
      assert PairsOf(k, rs) == PairsOf(k, rs - {r}) + {(k, r)};
    }
  }

  /** The event sets an alert for which there is no entry, at the zero time: the entry it creates compares
      equal to the event and is left blank and uncounted. */
  predicate Phantom(alerts: AlertMap, ev: Event) {
    && ActionOf(ev.reason).Set? && ev.time == ZERO_TIME
    && Lookup(alerts, Key(ev), ActionOf(ev.reason).reason).None?
  }

  /** The change in the number of active alerts that created minus resolved does not account for. */
  function Excess(before: Ctx, after: Ctx): int {
    |ActivePairs(after.alerts)| - |ActivePairs(before.alerts)|
      - (after.created - before.created) + (after.resolved - before.resolved)
  }

  /** Created minus resolved is the change in the number of active alerts. */
  predicate Balanced(before: Ctx, after: Ctx) {
    Excess(before, after) == 0
  }

  function ActiveSet(m: Reasons): set<string> {
    set r | r in m && m[r].Active()
  }

  lemma PairsAt(alerts: AlertMap, k: string, r: string)
    ensures (k, r) in ActivePairs(alerts) <==> IsActive(alerts, k, r)
    ensures (k, r) in ActivePairs(alerts) <==> r in ActiveSet(Resource(alerts, k))
  {
  }

  lemma ReplacedPairs(alerts: AlertMap, k: string, m: Reasons)
    ensures ActivePairs(alerts[k := m])
      == ActivePairs(alerts) - PairsOf(k, ActiveSet(Resource(alerts, k))) + PairsOf(k, ActiveSet(m))
  {
    var after := alerts[k := m];
    forall p: (string, string)
      ensures p in ActivePairs(after)
        <==> p in ActivePairs(alerts) - PairsOf(k, ActiveSet(Resource(alerts, k))) + PairsOf(k, ActiveSet(m))
    {
      PairsAt(after, p.0, p.1);
      PairsAt(alerts, p.0, p.1);
    }
  }

  /** Replacing one resource changes the number of active alerts by the difference on that resource. */
  lemma ReplaceResource(alerts: AlertMap, k: string, m: Reasons)
    ensures |ActivePairs(alerts[k := m])| == |ActivePairs(alerts)| - |ActiveSet(Resource(alerts, k))| + |ActiveSet(m)|
  {
    var gone := PairsOf(k, ActiveSet(Resource(alerts, k)));
    var added := PairsOf(k, ActiveSet(m));
    var rest := ActivePairs(alerts) - gone;
    PairsOfSize(k, ActiveSet(Resource(alerts, k)));
    PairsOfSize(k, ActiveSet(m));
    forall r | r in ActiveSet(Resource(alerts, k))
      ensures (k, r) in ActivePairs(alerts)
    {
      PairsAt(alerts, k, r);
    }
    assert gone <= ActivePairs(alerts);
    forall r | r in ActiveSet(m)
      ensures (k, r) !in rest
    {
      PairsAt(alerts, k, r);
    }
    assert rest !! added;
    ReplacedPairs(alerts, k, m);
  }

  lemma CloseAtBalance(m: Reasons, which: set<string>, t: int)
    ensures |ActiveSet(CloseAt(m, which, t))| == |ActiveSet(m)| - |Closing(m, which)|
  {
    assert Closing(m, which) <= ActiveSet(m);
    assert ActiveSet(CloseAt(m, which, t)) == ActiveSet(m) - Closing(m, which);
  }

  lemma RaiseBalance(m: Reasons, ev: Event, reason: string)
    ensures |ActiveSet(Raise(m, ev, reason))| == |ActiveSet(m)| + Creates(m, ev, reason)
      + if reason !in m && ev.time == ZERO_TIME then 1 else 0
  {
    var m' := Raise(m, ev, reason);
    RaisedSet(m, ev, reason);
    if reason in ActiveSet(m) {
      assert ActiveSet(m) + {reason} == ActiveSet(m);
    }
  }

  lemma RaisedSet(m: Reasons, ev: Event, reason: string)
    ensures var m' := Raise(m, ev, reason);
      ActiveSet(m') == if m'[reason].Active() then ActiveSet(m) + {reason} else ActiveSet(m)
  {
    var m' := Raise(m, ev, reason);
    assert forall r :: r != reason ==> (r in m' <==> r in m) && (r in m ==> m'[r] == m[r]);
  }

  lemma CloseAllBalance(c: Ctx, ev: Event, which: set<string>)
    ensures Balanced(c, CloseAll(c, ev, which))
  {
    var k := Key(ev);
    if k in c.alerts {
      ReplaceResource(c.alerts, k, CloseAt(c.alerts[k], which, ev.time));
      CloseAtBalance(c.alerts[k], which, ev.time);
    }
  }

  lemma SetAlertBalance(c: Ctx, ev: Event, reason: string, group: seq<string>)
    ensures Excess(c, SetAlert(c, ev, reason, group))
      == if ev.time == ZERO_TIME && Lookup(c.alerts, Key(ev), reason).None? then 1 else 0
  {
    var k := Key(ev);
    var m := Resource(c.alerts, k);
    var which := Elements(group) - {reason};
    var closed := CloseAt(m, which, ev.time);
    ReplaceResource(c.alerts, k, Raise(closed, ev, reason));
    CloseAtBalance(m, which, ev.time);
    RaiseBalance(closed, ev, reason);
  }

  /** One event keeps the balance exactly when it is not a phantom; a phantom is one active alert too many. */
  lemma BalancedIffNotPhantom(c: Ctx, ev: Event)
    ensures Balanced(c, Process(c, ev)) <==> !Phantom(c.alerts, ev)
    ensures Excess(c, Process(c, ev)) == if Phantom(c.alerts, ev) then 1 else 0
  {
    match ActionOf(ev.reason)
    case Ignore =>
    case ResolveAll => CloseAllBalance(c, ev, Resource(c.alerts, Key(ev)).Keys);
    case Clear(group) => CloseAllBalance(c, ev, Elements(group));
    case Set(reason, group) => SetAlertBalance(c, ev, reason, group);
  }

  /** Replacing one resource, the pairs that go and come are those of that resource. */
  lemma ReplacedChange(alerts: AlertMap, k: string, m: Reasons)
    ensures var was, now := ActiveSet(Resource(alerts, k)), ActiveSet(m);
      && |ActivePairs(alerts) - ActivePairs(alerts[k := m])| == |was - now|
      && |ActivePairs(alerts[k := m]) - ActivePairs(alerts)| == |now - was|
  {
    var after := alerts[k := m];
    var was, now := ActiveSet(Resource(alerts, k)), ActiveSet(m);
    forall p: (string, string)
      ensures p in ActivePairs(alerts) - ActivePairs(after) <==> p in PairsOf(k, was - now)
      ensures p in ActivePairs(after) - ActivePairs(alerts) <==> p in PairsOf(k, now - was)
    {
      PairsAt(alerts, p.0, p.1);
      PairsAt(after, p.0, p.1);
    }
    assert ActivePairs(alerts) - ActivePairs(after) == PairsOf(k, was - now);
    assert ActivePairs(after) - ActivePairs(alerts) == PairsOf(k, now - was);
    PairsOfSize(k, was - now);
    PairsOfSize(k, now - was);
  }

  lemma ClosedSet(m: Reasons, which: set<string>, t: int)
    ensures ActiveSet(CloseAt(m, which, t)) == ActiveSet(m) - Closing(m, which)
    ensures Closing(m, which) <= ActiveSet(m)
  {
  }

  lemma ClosedPairs(c: Ctx, ev: Event, which: set<string>)
    ensures var c' := CloseAll(c, ev, which);
      && c'.resolved - c.resolved == |ActivePairs(c.alerts) - ActivePairs(c'.alerts)|
      && c'.created == c.created && |ActivePairs(c'.alerts) - ActivePairs(c.alerts)| == 0
  {
    var k := Key(ev);
    if k in c.alerts {
      var m := c.alerts[k];
      var closed := CloseAt(m, which, ev.time);
      ClosedSet(m, which, ev.time);
      ReplacedChange(c.alerts, k, closed);
      assert ActiveSet(m) - ActiveSet(closed) == Closing(m, which);
      assert ActiveSet(closed) - ActiveSet(m) == {};
    } else {
      assert ActivePairs(c.alerts) - ActivePairs(c.alerts) == {};
    }
  }

  /** On one resource: what stops being active is what is closed, and the alert itself may become active. */
  lemma SetChange(m: Reasons, ev: Event, reason: string, which: set<string>)
    requires reason !in which
    ensures var after := Raise(CloseAt(m, which, ev.time), ev, reason);
      && ActiveSet(m) - ActiveSet(after) == Closing(m, which)
      && |ActiveSet(after) - ActiveSet(m)| == Creates(CloseAt(m, which, ev.time), ev, reason)
           + if reason !in m && ev.time == ZERO_TIME then 1 else 0
  {
    var closed := CloseAt(m, which, ev.time);
    var after := Raise(closed, ev, reason);
    ClosedSet(m, which, ev.time);
    RaisedSet(closed, ev, reason);
    Exchange(ActiveSet(m), Closing(m, which), reason, after[reason].Active());
    RaisedCounts(m, closed, ev, reason);
  }

  lemma RaisedCounts(m: Reasons, closed: Reasons, ev: Event, reason: string)
    requires reason in closed <==> reason in m
    requires reason in m ==> closed[reason] == m[reason]
    ensures (if Raise(closed, ev, reason)[reason].Active() && reason !in ActiveSet(m) then 1 else 0)
      == Creates(closed, ev, reason) + if reason !in m && ev.time == ZERO_TIME then 1 else 0
  {
  }

  lemma Exchange(was: set<string>, gone: set<string>, x: string, active: bool)
    requires gone <= was && x !in gone
    ensures var now := if active then was - gone + {x} else was - gone;
      && was - now == gone
      && |now - was| == if active && x !in was then 1 else 0
  {
    var now := if active then was - gone + {x} else was - gone;
    assert now - was == if active && x !in was then {x} else {};
  }

  lemma SetPairs(c: Ctx, ev: Event, reason: string, group: seq<string>)
    ensures var c' := SetAlert(c, ev, reason, group);
      && c'.resolved - c.resolved == |ActivePairs(c.alerts) - ActivePairs(c'.alerts)|
      && c'.created - c.created == |ActivePairs(c'.alerts) - ActivePairs(c.alerts)|
           - if ev.time == ZERO_TIME && Lookup(c.alerts, Key(ev), reason).None? then 1 else 0
  {
    var k := Key(ev);
    var m := Resource(c.alerts, k);
    var which := Elements(group) - {reason};
    SetChange(m, ev, reason, which);
    ReplacedChange(c.alerts, k, Raise(CloseAt(m, which, ev.time), ev, reason));
  }

  /** Each counter by itself: resolved counts the alerts that stop being active, created those that become active,
      except a phantom. */
  lemma CountersAreExact(c: Ctx, ev: Event)
    ensures var c' := Process(c, ev);
      && c'.resolved - c.resolved == |ActivePairs(c.alerts) - ActivePairs(c'.alerts)|
      && c'.created - c.created == |ActivePairs(c'.alerts) - ActivePairs(c.alerts)| - if Phantom(c.alerts, ev) then 1 else 0
  {
    match ActionOf(ev.reason)
    case Ignore =>
      assert ActivePairs(c.alerts) - ActivePairs(c.alerts) == {};
    case ResolveAll =>
      ClosedPairs(c, ev, Resource(c.alerts, Key(ev)).Keys);
    case Clear(group) =>
      ClosedPairs(c, ev, Elements(group));
    case Set(reason, group) => SetPairs(c, ev, reason, group);
  }

  /** A first disconnect at the zero time leaves an active alert that was never counted. */
  lemma ZeroTimeIsNotCounted(org: string, kind: string, name: string)
    ensures var c := Ctx(map[], 0, 0);
      var c' := Process(c, Event(org, kind, name, DISCONNECTED, "", ZERO_TIME));
      c'.created == 0 && |ActivePairs(c.alerts)| == 0 && |ActivePairs(c'.alerts)| == 1
  {
    var c := Ctx(map[], 0, 0);
    var ev := Event(org, kind, name, DISCONNECTED, "", ZERO_TIME);
    var c' := Process(c, ev);
    assert c'.alerts == map[Key(ev) := map[DISCONNECTED := BLANK]];
    assert ActivePairs(c'.alerts) == {(Key(ev), DISCONNECTED)};
    assert ActivePairs(c.alerts) == {};
  }

  /** By the log, the event sets an alert at the zero time that was neither there at first nor set before. */
  predicate FirstSetAtZero(initial: AlertMap, before: seq<Event>, ev: Event) {
    && ActionOf(ev.reason).Set? && ev.time == ZERO_TIME
    && var k, r := Key(ev), ActionOf(ev.reason).reason;
       Lookup(initial, k, r).None? && LastSet(before, k, r) < 0
  }

  function Phantoms(initial: AlertMap, evs: seq<Event>): nat {
    if evs == [] then 0
    else
      var n := |evs| - 1;
      Phantoms(initial, evs[..n]) + if FirstSetAtZero(initial, evs[..n], evs[n]) then 1 else 0
  }

  /** An entry is there exactly if it was there at first or the log sets it. */
  lemma {:induction false} EntryIffSet(c: Ctx, evs: seq<Event>, k: string, r: string)
    ensures Lookup(Run(c, evs).alerts, k, r).None? <==> Lookup(c.alerts, k, r).None? && LastSet(evs, k, r) < 0
  {
    if evs != [] {
      var n := |evs| - 1;
      EntryIffSet(c, evs[..n], k, r);
      ProcessAt(Run(c, evs[..n]), evs[n], k, r);
    }
  }

  lemma PhantomIffFirstSet(c: Ctx, before: seq<Event>, ev: Event)
    ensures Phantom(Run(c, before).alerts, ev) <==> FirstSetAtZero(c.alerts, before, ev)
  {
    if ActionOf(ev.reason).Set? {
      EntryIffSet(c, before, Key(ev), ActionOf(ev.reason).reason);
    }
  }

  /** Over any list of events there are as many active alerts too many as the log has first sets at the zero time. */
  lemma {:induction false} RunExcess(c: Ctx, evs: seq<Event>)
    ensures Excess(c, Run(c, evs)) == Phantoms(c.alerts, evs)
  {
    if evs != [] {
      var n := |evs| - 1;
      var p := Run(c, evs[..n]);
      RunExcess(c, evs[..n]);
      BalancedIffNotPhantom(p, evs[n]);
      PhantomIffFirstSet(c, evs[..n], evs[n]);
    }
  }

  /** How many alerts become active, event by event, over a list of events. */
  function Openings(c: Ctx, evs: seq<Event>): nat {
    if evs == [] then 0
    else
      var n := |evs| - 1;
      Openings(c, evs[..n]) + |ActivePairs(Run(c, evs).alerts) - ActivePairs(Run(c, evs[..n]).alerts)|
  }

  /** How many stop being active. */
  function Endings(c: Ctx, evs: seq<Event>): nat {
    if evs == [] then 0
    else
      var n := |evs| - 1;
      Endings(c, evs[..n]) + |ActivePairs(Run(c, evs[..n]).alerts) - ActivePairs(Run(c, evs).alerts)|
  }

  lemma {:induction false} RunCounts(c: Ctx, evs: seq<Event>)
    ensures Run(c, evs).resolved - c.resolved == Endings(c, evs)
    ensures Run(c, evs).created - c.created == Openings(c, evs) - Phantoms(c.alerts, evs)
  {
    if evs != [] {
      var n := |evs| - 1;
      RunCounts(c, evs[..n]);
      CountersAreExact(Run(c, evs[..n]), evs[n]);
      PhantomIffFirstSet(c, evs[..n], evs[n]);
    }
  }

  lemma {:induction false} NoPhantoms(initial: AlertMap, evs: seq<Event>)
    requires forall ev :: ev in evs ==> ev.time != ZERO_TIME
    ensures Phantoms(initial, evs) == 0
  {
    if evs != [] {
      NoPhantoms(initial, evs[..|evs| - 1]);
    }
  }

  // ---- Cleanup -------------------------------------------------------------------------------

  /** Cleanup deletes an entry that has ended, provided its reason is its key. */
  predicate Sweeps(r: string, info: AlertInfo) {
    !info.Active() && info.reason == r
  }

  function SweptReasons(m: Reasons): Reasons {
    map r | r in m && !Sweeps(r, m[r]) :: m[r]
  }

  /** The map after cleanup, without empty resources. */
  function Swept(alerts: AlertMap): AlertMap {
    map k | k in alerts && SweptReasons(alerts[k]) != map[] :: SweptReasons(alerts[k])
  }

  lemma SweptAt(alerts: AlertMap, k: string, r: string)
    ensures var found := Lookup(alerts, k, r);
      Lookup(Swept(alerts), k, r) == if found.Some? && Sweeps(r, found.value) then None else found
  {
    if Lookup(alerts, k, r).Some? && !Sweeps(r, alerts[k][r]) {
      assert r in SweptReasons(alerts[k]);
    }
  }

  function EndedPairs(alerts: AlertMap): set<(string, string)> {
    AllPairs(alerts) - ActivePairs(alerts)
  }

  lemma PairAt(alerts: AlertMap, p: (string, string))
    ensures p in AllPairs(alerts) <==> Lookup(alerts, p.0, p.1).Some?
    ensures p in ActivePairs(alerts) <==> IsActive(alerts, p.0, p.1)
  {
  }

  lemma CountEntries(alerts: AlertMap)
    ensures |AllPairs(alerts)| == |ActivePairs(alerts)| + |EndedPairs(alerts)|
  {
    assert ActivePairs(alerts) <= AllPairs(alerts);
  }

  /** Cleanup keeps every active alert, exclusive groups and the naming of entries; where entries describe
      themselves nothing but active alerts is left. */
  lemma SweptKeepsState(alerts: AlertMap)
    ensures Exclusive(alerts) ==> Exclusive(Swept(alerts))
    ensures NamedOrBlank(alerts) ==> NamedOrBlank(Swept(alerts))
    ensures WellFormed(alerts) ==> WellFormed(Swept(alerts)) && EndedPairs(Swept(alerts)) == {}
    ensures ActivePairs(Swept(alerts)) == ActivePairs(alerts)
  {
    forall k, r
      ensures var found := Lookup(alerts, k, r);
        Lookup(Swept(alerts), k, r) == if found.Some? && Sweeps(r, found.value) then None else found
    {
      SweptAt(alerts, k, r);
    }
    assert forall k, r :: IsActive(Swept(alerts), k, r) <==> IsActive(alerts, k, r);
    SweptPairs(alerts);
  }

  lemma SweptPairs(alerts: AlertMap)
    ensures ActivePairs(Swept(alerts)) == ActivePairs(alerts)
    ensures WellFormed(alerts) ==> EndedPairs(Swept(alerts)) == {}
  {
    forall p: (string, string)
      ensures p in ActivePairs(Swept(alerts)) <==> p in ActivePairs(alerts)
      ensures WellFormed(alerts) ==> p !in EndedPairs(Swept(alerts))
    {
      PairAt(Swept(alerts), p);
      PairAt(alerts, p);
      SweptAt(alerts, p.0, p.1);
    }
  }
}
