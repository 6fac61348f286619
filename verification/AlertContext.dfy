/** The event processor's own code: a map on the heap, changed in place event by event. */
module AlertContext {
  import opened Common
  import opened Alerts

  /** The map of alerts. Checkpoints and contexts refer to it and share what is done to it. */
  class AlertStore {
    var alerts: AlertMap

    constructor (alerts: AlertMap)
      ensures this.alerts == alerts
    {
      this.alerts := alerts;
    }
  }

  lemma CloseOne(m: Reasons, which: set<string>, r: string, t: int)
    ensures var m' := CloseAt(m, which, t);
      if r in m' && m'[r].Active() then
        && CloseAt(m, which + {r}, t) == m'[r := m'[r].(endsAt := Some(t))]
        && |Closing(m, which + {r})| == |Closing(m, which)| + 1
      else
        && CloseAt(m, which + {r}, t) == m'
        && Closing(m, which + {r}) == Closing(m, which)
  {
    var m' := CloseAt(m, which, t);
    if r in m' && m'[r].Active() {
      assert Closing(m, which + {r}) == Closing(m, which) + {r};
      assert r !in Closing(m, which);
    }
  }

  lemma NothingClosed(m: Reasons, t: int)
    ensures CloseAt(m, {}, t) == m && Closing(m, {}) == {}
  {
  }

  lemma OneMore(group: seq<string>, i: nat)
    requires i < |group|
    ensures Elements(group[..i + 1]) == Elements(group[..i]) + {group[i]}
  {
    assert group[..i + 1] == group[..i] + [group[i]];
  }

  class CheckpointContext {
    const store: AlertStore
    var created: nat
    var resolved: nat

    ghost function Value(): Ctx
      reads this, store
    {
      Ctx(store.alerts, created, resolved)
    }

    constructor (store: AlertStore)
      ensures this.store == store && created == 0 && resolved == 0
    {
      this.store, created, resolved := store, 0, 0;
    }

    /** Ends one alert of the resource if it is active. The ghost arguments say which alerts of the resource have
        been ended on the way here. */
    method EndIfActive(k: string, r: string, t: int, ghost was: AlertMap, ghost m: Reasons, ghost which: set<string>)
      requires k in store.alerts && store.alerts == was[k := CloseAt(m, which, t)]
      modifies this, store
      ensures k in store.alerts && store.alerts == was[k := CloseAt(m, which + {r}, t)]
      ensures resolved - |Closing(m, which + {r})| == old(resolved) - |Closing(m, which)| && created == old(created)
    {
      CloseOne(m, which, r, t);
      if r in store.alerts[k] {
        if store.alerts[k][r].Active() {
          store.alerts := store.alerts[k := store.alerts[k][r := store.alerts[k][r].(endsAt := Some(t))]];
          resolved := resolved + 1;
        }
      }
    }

    /** Ends every active alert of the resource; the map is visited in no particular order. */
    method ResolveAllAlertsForResource(ev: Event)
      modifies this, store
      ensures Value() == CloseAll(old(Value()), ev, Resource(old(store.alerts), Key(ev)).Keys)
    {
      var k := Key(ev);
      if k !in store.alerts {
        return;
      }
      EndAll(ev, k);
    }

    method EndAll(ev: Event, k: string)
      requires k in store.alerts
      modifies this, store
      ensures var m := old(store.alerts)[k];
        && store.alerts == old(store.alerts)[k := CloseAt(m, m.Keys, ev.time)]
        && resolved == old(resolved) + |Closing(m, m.Keys)| && created == old(created)
    {
      ghost var was := store.alerts;
      ghost var m := was[k];
      ghost var done: set<string> := {};
      var todo := store.alerts[k].Keys;
      NothingClosed(m, ev.time);
      while todo != {}
        invariant done + todo == m.Keys
        invariant k in store.alerts && store.alerts == was[k := CloseAt(m, done, ev.time)]
        invariant resolved == old(resolved) + |Closing(m, done)| && created == old(created)
        decreases |todo|
      {
        var r :| r in todo;
        EndIfActive(k, r, ev.time, was, m, done);
        todo := todo - {r};
        done := done + {r};
      }
      assert done == m.Keys;
    }

    /** The first half of setAlert: end the other alerts of the group. */
    method EndOthers(ev: Event, reason: string, group: seq<string>, k: string)
      requires k in store.alerts
      modifies this, store
      ensures var m := old(store.alerts)[k];
        && store.alerts == old(store.alerts)[k := CloseAt(m, Elements(group) - {reason}, ev.time)]
        && resolved == old(resolved) + |Closing(m, Elements(group) - {reason})| && created == old(created)
    {
      ghost var was := store.alerts;
      ghost var m := was[k];
      ghost var ended: set<string> := {};
      NothingClosed(m, ev.time);
      for i := 0 to |group|
        invariant ended == Elements(group[..i]) - {reason}
        invariant k in store.alerts && store.alerts == was[k := CloseAt(m, ended, ev.time)]
        invariant resolved == old(resolved) + |Closing(m, ended)| && created == old(created)
      {
        var r := group[i];
        OneMore(group, i);
        if reason != r {
          EndIfActive(k, r, ev.time, was, m, ended);
          ended := ended + {r};
        }
      }
      assert group[..|group|] == group;
    }

    method SetAlert(ev: Event, reason: string, group: seq<string>)
      modifies this, store
      ensures Value() == Alerts.SetAlert(old(Value()), ev, reason, group)
    {
      var k := Key(ev);
      if k !in store.alerts {
        store.alerts := store.alerts[k := map[]];
      }
      EndOthers(ev, reason, group, k);
      FinishSet(ev, reason, k);
    }

    /** The second half of setAlert: fill the entry unless it already starts at the event's time. */
    method FinishSet(ev: Event, reason: string, k: string)
      requires k in store.alerts
      modifies this, store
      ensures store.alerts == old(store.alerts)[k := Raise(old(store.alerts)[k], ev, reason)]
      ensures created == old(created) + Creates(old(store.alerts)[k], ev, reason) && resolved == old(resolved)
    {
      ghost var was := store.alerts;
      var alertExists := false;
      if reason !in store.alerts[k] {
        store.alerts := store.alerts[k := store.alerts[k][reason := BLANK]];
        assert store.alerts == was[k := was[k][reason := BLANK]];
      } else {
        alertExists := store.alerts[k][reason].Active();
      }
      if store.alerts[k][reason].startsAt != ev.time {
        store.alerts := store.alerts[k := store.alerts[k][reason :=
          AlertInfo(ev.name, ev.kind, ev.org, reason, ev.message, ev.time, None)]];
        assert store.alerts[k] == Raise(was[k], ev, reason);
        if !alertExists {
          created := created + 1;
        }
      } else {
        assert Raise(was[k], ev, reason) == store.alerts[k];
      }
    }

    method ClearAlertGroup(ev: Event, group: seq<string>)
      modifies this, store
      ensures Value() == CloseAll(old(Value()), ev, Elements(group))
    {
      var k := Key(ev);
      if k !in store.alerts {
        return;
      }
      ghost var was := store.alerts;
      NothingClosed(was[k], ev.time);
      assert Elements(group[..0]) == {};
      for i := 0 to |group|
        invariant k in store.alerts && store.alerts == was[k := CloseAt(was[k], Elements(group[..i]), ev.time)]
        invariant resolved == old(resolved) + |Closing(was[k], Elements(group[..i]))| && created == old(created)
      {
        var r := group[i];
        OneMore(group, i);
        EndIfActive(k, r, ev.time, was, was[k], Elements(group[..i]));
      }
      assert group[..|group|] == group;
    }

    method ProcessEvent(ev: Event)
      modifies this, store
      ensures Value() == Process(old(Value()), ev)
    {
      if ev.reason == DELETED || ev.reason == DECOMMISSIONED {
        ResolveAllAlertsForResource(ev);
      } else if ev.reason == APP_ERROR {
        SetAlert(ev, APP_ERROR, APP_GROUP);
      } else if ev.reason == APP_DEGRADED {
        SetAlert(ev, APP_DEGRADED, APP_GROUP);
      } else if ev.reason == APP_HEALTHY {
        ClearAlertGroup(ev, APP_GROUP);
      } else if ev.reason == CPU_CRITICAL {
        SetAlert(ev, CPU_CRITICAL, CPU_GROUP);
      } else if ev.reason == CPU_WARNING {
        SetAlert(ev, CPU_WARNING, CPU_GROUP);
      } else if ev.reason == CPU_NORMAL {
        ClearAlertGroup(ev, CPU_GROUP);
      } else {
        ProcessOtherEvent(ev);
      }
    }

    /** The rest of the cases: memory, disk and connection. */
    method ProcessOtherEvent(ev: Event)
      requires ActionOf(ev.reason) == OtherActionOf(ev.reason)
      modifies this, store
      ensures Value() == Process(old(Value()), ev)
    {
      if ev.reason == MEMORY_CRITICAL {
        SetAlert(ev, MEMORY_CRITICAL, MEMORY_GROUP);
      } else if ev.reason == MEMORY_WARNING {
        SetAlert(ev, MEMORY_WARNING, MEMORY_GROUP);
      } else if ev.reason == MEMORY_NORMAL {
        ClearAlertGroup(ev, MEMORY_GROUP);
      } else if ev.reason == DISK_CRITICAL {
        SetAlert(ev, DISK_CRITICAL, DISK_GROUP);
      } else if ev.reason == DISK_WARNING {
        SetAlert(ev, DISK_WARNING, DISK_GROUP);
      } else if ev.reason == DISK_NORMAL {
        ClearAlertGroup(ev, DISK_GROUP);
      } else if ev.reason == DISCONNECTED {
        SetAlert(ev, DISCONNECTED, []);
      } else if ev.reason == CONNECTED {
        ClearAlertGroup(ev, [DISCONNECTED]);
      }
    }
  }
}
