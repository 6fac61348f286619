/** The session manager's own code, run against a world in which other clients act between any two of its
    service calls. Every effect it has is a step of the protocol, so what holds of all runs of the protocol
    holds of it. */
module SessionManager {
  import opened Common
  import opened Sessions
  import opened SessionProtocol
  import SessionInvariant
  import SessionTheorems

  predicate NoneBy(steps: seq<Step>, c: nat) {
    forall i :: 0 <= i < |steps| ==> !By(steps[i], c)
  }

  lemma {:induction false} OthersLeaveClient(s: State, steps: seq<Step>, c: nat)
    requires ValidRun(s, steps) && NoneBy(steps, c) && c in s.clients
    ensures c in Exec(s, steps).clients && Exec(s, steps).clients[c] == s.clients[c]
    decreases |steps|
  {
    if steps != [] {
      SessionInvariant.ClientIdentity(s, steps[0], c);
      OthersLeaveClient(Next(s, steps[0]), steps[1..], c);
    }
  }

  class Manager {
    var world: State
    ghost const start: State
    ghost var trace: seq<Step>

    /** The world is where the steps taken so far lead. */
    ghost predicate Valid()
      reads this
    {
      Init(start) && ValidRun(start, trace) && world == Exec(start, trace)
    }

    /** The client's state in the current world. */
    predicate At(c: nat, cl: Client)
      reads this
    {
      c in world.clients && world.clients[c] == cl
    }

    constructor (value: Annotation, flags: Flags, version: nat)
      requires Unique(Listed(value))
      ensures Valid() && trace == [] && world.clients == map[] && world.device == Device(version, flags, value)
    {
      var s := State(Device(version, flags, value), {}, map[], Ids(Listed(value)), value, []);
      world, start, trace := s, s, [];
    }

    method Take(step: Step)
      requires Valid() && Enabled(world, step)
      modifies this
      ensures Valid() && trace == old(trace) + [step] && world == Next(old(world), step)
    {
      assert Exec(world, [step]) == Next(world, step);
      RunAppend(start, trace, [step]);
      world := Next(world, step);
      trace := trace + [step];
    }

    /** Any number of steps by anyone but client `c`. */
    method Interfere(c: nat)
      requires Valid()
      modifies this
      ensures Valid() && old(trace) <= trace && NoneBy(trace[|old(trace)|..], c)
      ensures c in old(world).clients ==> At(c, old(world).clients[c])
    {
      assert ValidRun(world, []) && NoneBy([], c);
      var steps: seq<Step> :| ValidRun(world, steps) && NoneBy(steps, c);
      if c in world.clients {
        OthersLeaveClient(world, steps, c);
      }
      RunAppend(start, trace, steps);
      world := Exec(world, steps);
      trace := trace + steps;
    }

    // ---- The services ------------------------------------------------------------------------

    method GetDevice(c: nat) returns (found: bool, d: Device)
      requires Valid() && c in world.clients && world.clients[c].phase.Reading?
      modifies this
      ensures Valid() && old(trace) <= trace
      ensures At(c, AfterGet(old(world).clients[c], d, found))
    {
      Interfere(c);
      found, d := *, world.device;
      Take(Get(c, found));
    }

    method GetDeviceForCheck(c: nat) returns (found: bool, d: Device)
      requires Valid() && c in world.clients && world.clients[c].phase.Checking? && world.clients[c].request.Start?
      modifies this
      ensures Valid() && old(trace) <= trace
      ensures At(c, AfterCheck(old(world).clients[c], d, found))
    {
      Interfere(c);
      found, d := *, world.device;
      Take(Check(c, found));
    }

    /** Writes the record back; the service compares the version it was read at. */
    method UpdateDevice(c: nat, version: nat, value: Annotation) returns (outcome: PutOutcome)
      requires Valid() && c in world.clients && world.clients[c].phase.Writing?
      requires world.clients[c].phase.seen == version && world.clients[c].phase.next == value
      modifies this
      ensures Valid() && old(trace) <= trace
      ensures At(c, AfterPut(old(world).clients[c], outcome))
    {
      Interfere(c);
      outcome :| Commits(outcome) ==> version == world.device.version by {
        assert !Commits(VersionConflict);
      }
      Take(Put(c, outcome));
    }

    method RegisterSession(c: nat) returns (accepted: bool)
      requires Valid() && c in world.clients && world.clients[c].phase.Registering?
      modifies this
      ensures Valid() && old(trace) <= trace
      ensures At(c, old(world).clients[c].(phase := if accepted then Finished(OK) else Reading(RollingBack(Internal), 0)))
      ensures accepted ==> old(world).clients[c].id in world.registered
    {
      Interfere(c);
      accepted := *;
      Take(Register(c, accepted));
    }

    method UnregisterSession(c: nat) returns (accepted: bool)
      requires Valid() && c in world.clients && world.clients[c].phase.Unregistering?
      modifies this
      ensures Valid() && old(trace) <= trace
      ensures At(c, old(world).clients[c].(phase := Finished(if accepted then OK else Internal)))
      ensures accepted ==> old(world).clients[c].id !in world.registered
    {
      Interfere(c);
      accepted := *;
      Take(Unregister(c, accepted));
    }

    // ---- The manager -------------------------------------------------------------------------

    method RunUpdater(u: Updater, value: Annotation, previous: string) returns (r: Update, replaced: string)
      ensures r == Apply(u, value) && replaced == Reported(u, value, previous)
    {
      replaced := previous;
      match u {
        case Add(id, app, kind) => r := AddAppSession(value, id, app, kind);
        case Replace(id, app, kind) => r, replaced := ReplaceAppSession(value, id, app, kind, previous);
        case Remove(id) => r := RemoveAppSession(value, id);
      }
    }

    /** The read-modify-write loop, at most ten passes. */
    method ModifyAnnotations(c: nat, enforceGuards: bool, u: Updater, previous: string)
      returns (status: Status, replaced: string)
      requires Valid() && c in world.clients
      requires world.clients[c].phase.Reading? && world.clients[c].phase.tries == 0
      requires enforceGuards == world.clients[c].phase.job.Adding?
      requires u == UpdaterOf(world.clients[c], enforceGuards) && previous == world.clients[c].reported
      modifies this
      ensures Valid() && old(trace) <= trace && status != BadRequest && (!enforceGuards ==> status != Conflict)
      ensures var me := old(world).clients[c].(reported := replaced);
        var job := old(world).clients[c].phase.job;
        At(c, if status.OK? then AfterSuccess(me, job) else AfterFailure(me, job, status))
    {
      var before := world.clients[c];
      var job := before.phase.job;
      replaced := previous;
      for i := 0 to MAX_TRIES
        invariant Valid() && old(trace) <= trace
        invariant At(c, if i < MAX_TRIES then before.(reported := replaced, phase := Reading(job, i))
                        else AfterFailure(before.(reported := replaced), job, Internal))
      {
        var found, device := GetDevice(c);
        if !found {
          return Unreadable, replaced;
        }
        if enforceGuards {
          if device.flags.awaitingReconnect {
            return Conflict, replaced;
          }
          if device.flags.conflictPaused {
            return Conflict, replaced;
          }
          if device.flags.decommissioning {
            return Conflict, replaced;
          }
        }
        var r;
        r, replaced := RunUpdater(u, device.value, replaced);
        if r.Duplicate? {
          return Conflict, replaced;
        }
        if r.Undecodable? {
          return Internal, replaced;
        }
        if r.value == device.value {
          return OK, replaced;
        }
        var outcome := UpdateDevice(c, device.version, r.value);
        if !outcome.VersionConflict? {
          return if outcome.Committed? then OK else Internal, replaced;
        }
      }
      status := Internal;
    }

    /** StartSession. On success the session is registered and its entry took effect exactly once. */
    method StartSession(c: nat, app: string, kind: string, force: bool, uuid: string)
      returns (session: Option<string>, status: Status)
      requires Valid() && c !in world.clients && uuid !in world.used && uuid != ""
      modifies this
      ensures Valid() && old(trace) <= trace
      ensures c in world.clients && world.clients[c].phase == Finished(status) && world.clients[c].id == uuid
      ensures session == if status.OK? then Some(uuid) else None
      ensures status == BadRequest <==> !ValidRequest(app, kind)
      ensures status.OK? ==> uuid in world.registered && SessionTheorems.ExactlyOnce(world.log, c, true)
    {
      Take(BeginStart(c, app, kind, force, uuid));
      if app == "" || kind == "" || (kind != SERIAL && kind != VNC) {
        return None, BadRequest;
      }
      var found, device := GetDeviceForCheck(c);
      if !found {
        return None, Unreadable;
      }
      if device.flags.decommissioning || device.flags.awaitingReconnect || device.flags.conflictPaused {
        return None, Conflict;
      }
      if !force && SlotTaken(Listed(device.value), app, kind) {
        return None, Conflict;
      }
      var u := if force then Replace(uuid, app, kind) else Add(uuid, app, kind);
      var replaced;
      status, replaced := ModifyAnnotations(c, true, u, "");
      if !status.OK? {
        RollBack(c, status);
        return None, status;
      }
      var accepted := RegisterSession(c);
      if !accepted {
        RollBack(c, Internal);
        return None, Internal;
      }
      SessionTheorems.LoopRefinesAtomicUpdate(start, trace, c);
      session := Some(uuid);
    }

    /** Takes a failed start's entry out again; whether that worked does not change what the start reports. */
    method RollBack(c: nat, outcome: Status)
      requires Valid() && c in world.clients && world.clients[c].phase == Reading(RollingBack(outcome), 0)
      modifies this
      ensures Valid() && old(trace) <= trace
      ensures c in world.clients && world.clients[c].phase == Finished(outcome) && world.clients[c].id == old(world).clients[c].id
    {
      var cl := world.clients[c];
      var _, _ := ModifyAnnotations(c, false, Remove(cl.id), cl.reported);
    }

    /** CloseSession: the entry goes first, the registration after it. */
    method CloseSession(c: nat, of: nat) returns (status: Status)
      requires Valid() && c !in world.clients
      requires of in world.clients && world.clients[of].request.Start? && world.clients[of].phase == Finished(OK)
      modifies this
      ensures Valid() && old(trace) <= trace
      ensures c in world.clients && world.clients[c].phase == Finished(status) && status != Conflict
      ensures status.OK? ==>
        var id := old(world).clients[of].id; SessionInvariant.Retired(world, id) && id !in world.registered
    {
      Take(BeginClose(c, of));
      var id := world.clients[c].id;
      var modified, _ := ModifyAnnotations(c, false, Remove(id), "");
      if !modified.OK? {
        return modified;
      }
      var accepted := UnregisterSession(c);
      SessionTheorems.ReachableInv(start, trace);
      assert SessionInvariant.ClientOk(world, c);
      status := if accepted then OK else Internal;
    }
  }
}
