/** What a call comes to when nobody interferes: which starts succeed, that a close or a rollback is never held up by the
    state of the device, and that version conflicts are survived up to the last try. */
module SessionOutcomes {
  import opened Common
  import opened Sessions
  import opened SessionProtocol
  import opened SessionInvariant

  /** A step of client `c` in which the services do their part; a write may still meet a version conflict. */
  predicate Undisturbed(step: Step, c: nat) {
    && By(step, c)
    && match step
       case Check(_, found) => found
       case Get(_, found) => found
       case Put(_, outcome) => outcome == Committed || outcome == VersionConflict
       case Register(_, accepted) => accepted
       case Unregister(_, accepted) => accepted
       case _ => true
  }

  /** Such steps lead from one state to another, with `conflicts` version conflicts on the way. */
  ghost predicate Leads(s: State, steps: seq<Step>, c: nat, conflicts: nat, s': State) {
    && ValidRun(s, steps) && Exec(s, steps) == s'
    && (forall i :: 0 <= i < |steps| ==> Undisturbed(steps[i], c))
    && Conflicts(steps) == conflicts
  }

  function Conflicts(steps: seq<Step>): nat {
    if steps == [] then 0
    else
      var n := |steps| - 1;
      Conflicts(steps[..n]) + if steps[n].Put? && steps[n].outcome == VersionConflict then 1 else 0
  }

  lemma Go(s: State, steps: seq<Step>, c: nat, conflicts: nat, s': State, step: Step)
    requires Leads(s, steps, c, conflicts, s') && Enabled(s', step) && Undisturbed(step, c)
    ensures Leads(s, steps + [step], c,
      if step.Put? && step.outcome == VersionConflict then conflicts + 1 else conflicts, Next(s', step))
  {
    assert Exec(s', [step]) == Next(s', step);
    RunAppend(s, steps, [step]);
    assert (steps + [step])[..|steps|] == steps;
  }

  // ---- The loop ------------------------------------------------------------------------------

  /** Only client `c` differs, and only in its phase and in the id it reports. */
  predicate MovedTo(s: State, s': State, c: nat, phase: Phase) {
    && c in s.clients && c in s'.clients
    && s'.clients[c] == s.clients[c].(phase := phase, reported := s'.clients[c].reported)
    && s'.device == s.device && s'.registered == s.registered
    && (forall d :: d != c && d in s.clients ==> d in s'.clients && s'.clients[d] == s.clients[d])
  }

  /** The client is about to read, and its updater has something to write. */
  predicate HasWork(s: State, c: nat, job: Job, tries: nat) {
    && c in s.clients && s.clients[c].phase == Reading(job, tries)
    && Admits(job, s.device, true)
    && var r := Apply(UpdaterOf(s.clients[c], job.Adding?), s.device.value);
       r.Updated? && r.value != s.device.value
  }

  /** A pass that meets a version conflict leads to the next one. */
  lemma OnePass(s: State, c: nat, job: Job, tries: nat)
    requires HasWork(s, c, job, tries) && tries + 1 < 10
    ensures var s1 := Next(s, Get(c, true));
      && Enabled(s1, Put(c, VersionConflict))
      && MovedTo(s, Next(s1, Put(c, VersionConflict)), c, Reading(job, tries + 1))
      && HasWork(Next(s1, Put(c, VersionConflict)), c, job, tries + 1)
  {
  }

  /** Up to nine conflicts leave the client with another try. */
  lemma {:induction false} ManyPasses(s: State, c: nat, job: Job, n: nat) returns (steps: seq<Step>, s': State)
    requires HasWork(s, c, job, 0) && n < 10
    ensures Leads(s, steps, c, n, s') && MovedTo(s, s', c, Reading(job, n)) && HasWork(s', c, job, n)
  {
    if n == 0 {
      steps, s' := [], s;
    } else {
      var some, s1 := ManyPasses(s, c, job, n - 1);
      OnePass(s1, c, job, n - 1);
      Go(s, some, c, n - 1, s1, Get(c, true));
      var s2 := Next(s1, Get(c, true));
      Go(s, some + [Get(c, true)], c, n - 1, s2, Put(c, VersionConflict));
      steps, s' := some + [Get(c, true)] + [Put(c, VersionConflict)], Next(s2, Put(c, VersionConflict));
    }
  }

  /** The client's job is done and the updater's value is in the record. */
  predicate Wrote(s: State, s': State, c: nat, job: Job) {
    && c in s.clients && c in s'.clients
    && s'.clients[c] == AfterSuccess(s.clients[c].(reported := s'.clients[c].reported), job)
    && Apply(UpdaterOf(s.clients[c], job.Adding?), s.device.value) == Updated(s'.device.value)
    && s'.device.flags == s.device.flags && s'.registered == s.registered
  }

  lemma LastPass(s: State, c: nat, job: Job, tries: nat)
    requires HasWork(s, c, job, tries)
    ensures var s1 := Next(s, Get(c, true));
      Enabled(s1, Put(c, Committed)) && Wrote(s, Next(s1, Put(c, Committed)), c, job)
  {
  }

  /** With fewer than ten conflicts the loop writes. */
  lemma LoopWrites(s: State, c: nat, job: Job, n: nat) returns (steps: seq<Step>, s': State)
    requires HasWork(s, c, job, 0) && n < 10
    ensures Leads(s, steps, c, n, s') && Wrote(s, s', c, job)
  {
    var some, s1 := ManyPasses(s, c, job, n);
    LastPass(s1, c, job, n);
    Go(s, some, c, n, s1, Get(c, true));
    var s2 := Next(s1, Get(c, true));
    Go(s, some + [Get(c, true)], c, n, s2, Put(c, Committed));
    steps, s' := some + [Get(c, true)] + [Put(c, Committed)], Next(s2, Put(c, Committed));
  }

  /** A longer run from a shorter one. */
  lemma Chained(s: State, a: seq<Step>, s1: State, b: seq<Step>, s2: State, c: nat, m: nat, n: nat)
    requires Leads(s, a, c, m, s1) && Leads(s1, b, c, n, s2)
    ensures Leads(s, a + b, c, m + n, s2)
  {
    RunAppend(s, a, b);
    ConflictsAppend(a, b);
  }

  lemma {:induction false} ConflictsAppend(a: seq<Step>, b: seq<Step>)
    ensures Conflicts(a + b) == Conflicts(a) + Conflicts(b)
  {
    if b == [] {
      assert a + b == a;
    } else {
      var n := |b| - 1;
      assert (a + b)[..|a + b| - 1] == a + b[..n];
      ConflictsAppend(a, b[..n]);
    }
  }

  // ---- Closing and rolling back --------------------------------------------------------------

  predicate IsListed(a: Annotation, id: string) {
    exists x :: x in Listed(a) && x.id == id
  }

  /** Every entry with another id is still there, and nothing else is. */
  ghost predicate TakenFrom(before: Annotation, after: Annotation, id: string) {
    forall x :: x in Listed(after) <==> x in Listed(before) && x.id != id
  }

  /** Reading for a removal: whatever the device's flags, the client goes on to a write, or to its success if there is
      nothing to remove. */
  lemma RemovalIsNeverRefused(s: State, c: nat)
    requires c in s.clients && s.clients[c].phase.Reading? && !s.clients[c].phase.job.Adding? && !s.device.value.Opaque?
    ensures var job := s.clients[c].phase.job;
      var cl := Next(s, Get(c, true)).clients[c];
      if IsListed(s.device.value, s.clients[c].id) then cl.phase.Writing? && HasWork(s, c, job, s.clients[c].phase.tries)
      else cl == AfterSuccess(s.clients[c], job)
  {
    RemoveTakesOut(s.device.value, s.clients[c].id);
  }

  /** A removal alone in the world does its job, for every value of the flags. */
  lemma RemovalAlone(s: State, c: nat, job: Job, n: nat) returns (steps: seq<Step>, s': State)
    requires c in s.clients && s.clients[c].phase == Reading(job, 0) && !job.Adding? && !s.device.value.Opaque? && n < 10
    ensures Leads(s, steps, c, if IsListed(s.device.value, s.clients[c].id) then n else 0, s')
    ensures c in s'.clients && s'.clients[c] == AfterSuccess(s.clients[c].(reported := s'.clients[c].reported), job)
    ensures TakenFrom(s.device.value, s'.device.value, s.clients[c].id)
    ensures s'.registered == s.registered
  {
    var id := s.clients[c].id;
    RemoveTakesOut(s.device.value, id);
    RemovalIsNeverRefused(s, c);
    if IsListed(s.device.value, id) {
      steps, s' := LoopWrites(s, c, job, n);
    } else {
      steps, s' := [Get(c, true)], Next(s, Get(c, true));
      Go(s, [], c, 0, s, Get(c, true));
      assert [] + [Get(c, true)] == steps;
    }
  }

  /** A close alone in the world succeeds whatever the device's state: afterwards the id is neither listed nor
      registered, and every other entry is still there. */
  lemma CloseAlone(s: State, c: nat, of: nat, n: nat) returns (steps: seq<Step>, s': State)
    requires Enabled(s, BeginClose(c, of)) && !s.device.value.Opaque? && n < 10
    ensures Leads(s, steps, c, if IsListed(s.device.value, s.clients[of].id) then n else 0, s')
    ensures c in s'.clients && s'.clients[c].phase == Finished(OK)
    ensures TakenFrom(s.device.value, s'.device.value, s.clients[of].id)
    ensures s'.registered == s.registered - {s.clients[of].id}
  {
    var first, s1 := BeginsReading(s, c, of);
    var loop, s2 := RemovalAlone(s1, c, Closing, n);
    var m := if IsListed(s.device.value, s.clients[of].id) then n else 0;
    Chained(s, first, s1, loop, s2, c, 0, m);
    steps, s' := LastlyUnregisters(s, first + loop, s2, c, m);
  }

  lemma BeginsReading(s: State, c: nat, of: nat) returns (steps: seq<Step>, s1: State)
    requires Enabled(s, BeginClose(c, of))
    ensures Leads(s, steps, c, 0, s1)
    ensures c in s1.clients && s1.clients[c].phase == Reading(Closing, 0) && s1.clients[c].id == s.clients[of].id
    ensures s1.device == s.device && s1.registered == s.registered
  {
    Go(s, [], c, 0, s, BeginClose(c, of));
    steps, s1 := [] + [BeginClose(c, of)], Next(s, BeginClose(c, of));
  }

  lemma LastlyUnregisters(s: State, sofar: seq<Step>, s2: State, c: nat, m: nat) returns (steps: seq<Step>, s': State)
    requires Leads(s, sofar, c, m, s2) && c in s2.clients && s2.clients[c].phase.Unregistering?
    ensures Leads(s, steps, c, m, s')
    ensures c in s'.clients && s'.clients[c].phase == Finished(OK)
    ensures s'.device == s2.device && s'.registered == s2.registered - {s2.clients[c].id}
  {
    Go(s, sofar, c, m, s2, Unregister(c, true));
    steps, s' := sofar + [Unregister(c, true)], Next(s2, Unregister(c, true));
  }

  /** So does a rollback: the failed start ends with its own status, its entry gone. */
  lemma RollbackAlone(s: State, c: nat, outcome: Status, n: nat) returns (steps: seq<Step>, s': State)
    requires c in s.clients && s.clients[c].phase == Reading(RollingBack(outcome), 0) && !s.device.value.Opaque? && n < 10
    ensures Leads(s, steps, c, if IsListed(s.device.value, s.clients[c].id) then n else 0, s')
    ensures c in s'.clients && s'.clients[c].phase == Finished(outcome) && s'.clients[c].rollback == Succeeded
    ensures TakenFrom(s.device.value, s'.device.value, s.clients[c].id)
  {
    steps, s' := RemovalAlone(s, c, RollingBack(outcome), n);
  }

  predicate WritesLast(cl: Client, job: Job) {
    cl.phase.Writing? && cl.phase.job == job && cl.phase.tries == 9
  }

  /** What a failing service makes of a call. A close that cannot read the device, or whose write fails or meets its
      tenth conflict, ends with an error; a start in the same place turns to its rollback with that error. */
  lemma FailuresAreReported(s: State, c: nat, tries: nat)
    requires c in s.clients
    ensures s.clients[c].phase.Checking? && s.clients[c].request.Start? ==>
      Next(s, Check(c, false)).clients[c].phase == Finished(Unreadable)
    ensures s.clients[c].phase == Reading(Closing, tries) ==>
      Next(s, Get(c, false)).clients[c].phase == Finished(Unreadable)
    ensures s.clients[c].phase == Reading(Adding, tries) ==>
      Next(s, Get(c, false)).clients[c].phase == Reading(RollingBack(Unreadable), 0)
    ensures WritesLast(s.clients[c], Closing) ==>
      && Next(s, Put(c, VersionConflict)).clients[c].phase == Finished(Internal)
      && Next(s, Put(c, Error(false))).clients[c].phase == Finished(Internal)
    ensures WritesLast(s.clients[c], Adding) ==>
      && Next(s, Put(c, VersionConflict)).clients[c].phase == Reading(RollingBack(Internal), 0)
      && Next(s, Put(c, Error(false))).clients[c].phase == Reading(RollingBack(Internal), 0)
    ensures s.clients[c].phase.Registering? ==>
      Next(s, Register(c, false)).clients[c].phase == Reading(RollingBack(Internal), 0)
    ensures s.clients[c].phase.Unregistering? ==>
      Next(s, Unregister(c, false)).clients[c].phase == Finished(Internal)
  {
  }

  // ---- Starting ------------------------------------------------------------------------------

  /** What a start comes to, by the request and the device it finds. */
  function StartOutcome(d: Device, app: string, kind: string, force: bool): Status {
    if app == "" || (kind != "serial" && kind != "vnc") then BadRequest
    else if d.flags.awaitingReconnect || d.flags.conflictPaused || d.flags.decommissioning then Conflict
    else if d.value.Opaque? then Internal
    else if !force && exists x :: x in Listed(d.value) && x.app == app && x.kind == kind then Conflict
    else OK
  }

  /** The annotation after a successful start: the new entry, and the old ones except those it takes over from. */
  predicate StartedIn(before: Annotation, after: Annotation, app: string, kind: string, uuid: string) {
    && (exists x :: x in Listed(after) && x.id == uuid && x.app == app && x.kind == kind)
    && (forall x :: x in Listed(before) && (x.app != app || x.kind != kind) ==> x in Listed(after))
    && (forall x :: x in Listed(after) && x.id != uuid ==> x in Listed(before))
  }

  lemma PlainStartAdds(before: Annotation, app: string, kind: string, uuid: string)
    requires !before.Opaque? && !exists x :: x in Listed(before) && x.app == app && x.kind == kind
    ensures var r := Apply(Add(uuid, app, kind), before); r.Updated? && StartedIn(before, r.value, app, kind, uuid)
  {
    AddRefusesIff(before, uuid, app, kind);
    var after := Listed(Apply(Add(uuid, app, kind), before).value);
    assert after[|after| - 1] in after;
  }

  lemma ForcedStartAdds(before: Annotation, app: string, kind: string, uuid: string)
    requires !before.Opaque?
    ensures var r := Apply(Replace(uuid, app, kind), before); r.Updated? && StartedIn(before, r.value, app, kind, uuid)
  {
    ReplaceTakesOver(before, uuid, app, kind);
    var after := Listed(Apply(Replace(uuid, app, kind), before).value);
    var kept := after[..|after| - 1];
    assert after == kept + [after[|after| - 1]];
  }

  lemma StartAdds(cl: Client, d: Device)
    requires cl.request.Start? && !d.value.Opaque? && !IsListed(d.value, cl.id)
    requires cl.request.force || !exists x :: x in Listed(d.value) && x.app == cl.request.app && x.kind == cl.request.kind
    ensures var r := Apply(UpdaterOf(cl, true), d.value);
      && r.Updated? && r.value != d.value
      && StartedIn(d.value, r.value, cl.request.app, cl.request.kind, cl.id)
  {
    if cl.request.force {
      ForcedStartAdds(d.value, cl.request.app, cl.request.kind, cl.id);
    } else {
      PlainStartAdds(d.value, cl.request.app, cl.request.kind, cl.id);
    }
    var r := Apply(UpdaterOf(cl, true), d.value);
    var x :| x in Listed(r.value) && x.id == cl.id;
    assert r.value == d.value ==> IsListed(d.value, cl.id);
  }

  lemma FreshIsUnlisted(s: State, uuid: string)
    requires Inv(s) && uuid !in s.used
    ensures !IsListed(s.device.value, uuid)
  {
  }

  /** The first look lets through what can succeed, and text that does not decode. */
  lemma FirstLook(s: State, c: nat)
    requires c in s.clients && s.clients[c].phase.Checking? && s.clients[c].request.Start?
    requires ValidRequest(s.clients[c].request.app, s.clients[c].request.kind)
    ensures var cl := s.clients[c];
      var outcome := StartOutcome(s.device, cl.request.app, cl.request.kind, cl.request.force);
      Next(s, Check(c, true)).clients[c].phase == if outcome == Conflict then Finished(Conflict) else Reading(Adding, 0)
  {
    var cl := s.clients[c];
    if SlotTaken(Listed(s.device.value), cl.request.app, cl.request.kind) {
      var x :| x in Listed(s.device.value) && InSlot(x, cl.request.app, cl.request.kind);
      assert x.app == cl.request.app && x.kind == cl.request.kind;
    }
    forall x | x in Listed(s.device.value) && x.app == cl.request.app && x.kind == cl.request.kind
      ensures SlotTaken(Listed(s.device.value), cl.request.app, cl.request.kind)
    {
      assert InSlot(x, cl.request.app, cl.request.kind);
    }
  }

  /** Text that does not decode: the updater fails and so does the rollback. */
  lemma StartOnOpaque(s: State, c: nat)
    requires c in s.clients && s.clients[c].phase == Reading(Adding, 0)
    requires s.device.flags.Ready() && s.device.value.Opaque?
    ensures var s1 := Next(s, Get(c, true));
      && Enabled(s1, Get(c, true))
      && var s2 := Next(s1, Get(c, true));
         s2.clients[c].phase == Finished(Internal) && s2.device == s.device && s2.registered == s.registered
  {
  }

  /** A start alone in the world, in any reachable state, ends with the status above. It succeeds exactly on a ready
      device whose slot is free or taken by force; then the session is listed and registered, entries of other
      applications and kinds are untouched, and up to nine version conflicts make no difference. Otherwise record
      and registration stay as they were. */
  lemma StartAlone(s: State, c: nat, app: string, kind: string, force: bool, uuid: string, n: nat)
    returns (steps: seq<Step>, s': State)
    requires Inv(s) && Enabled(s, BeginStart(c, app, kind, force, uuid)) && n < 10
    ensures var outcome := StartOutcome(s.device, app, kind, force);
      && Leads(s, steps, c, if outcome == OK then n else 0, s')
      && c in s'.clients && s'.clients[c].phase == Finished(outcome)
      && (outcome == OK ==>
            StartedIn(s.device.value, s'.device.value, app, kind, uuid) && s'.registered == s.registered + {uuid})
      && (outcome != OK ==> s'.device == s.device && s'.registered == s.registered)
  {
    var outcome := StartOutcome(s.device, app, kind, force);
    var begin := BeginStart(c, app, kind, force, uuid);
    var s1 := Next(s, begin);
    Go(s, [], c, 0, s, begin);
    steps, s' := [] + [begin], s1;
    if outcome != BadRequest {
      FirstLook(s1, c);
      var s2 := Next(s1, Check(c, true));
      Go(s, steps, c, 0, s1, Check(c, true));
      steps, s' := steps + [Check(c, true)], s2;
      if outcome == Internal {
        StartOnOpaque(s2, c);
        var s3 := Next(s2, Get(c, true));
        Go(s, steps, c, 0, s2, Get(c, true));
        Go(s, steps + [Get(c, true)], c, 0, s3, Get(c, true));
        steps, s' := steps + [Get(c, true)] + [Get(c, true)], Next(s3, Get(c, true));
      } else if outcome == OK {
        steps, s' := StartSucceeds(s, steps, s2, c, uuid, n);
      }
    }
  }

  lemma StartSucceeds(s: State, sofar: seq<Step>, s2: State, c: nat, uuid: string, n: nat)
    returns (steps: seq<Step>, s': State)
    requires Inv(s) && uuid !in s.used && n < 10 && Leads(s, sofar, c, 0, s2)
    requires s2.device == s.device && s2.registered == s.registered
    requires c in s2.clients && s2.clients[c].phase == Reading(Adding, 0) && s2.clients[c].id == uuid
    requires s2.clients[c].request.Start?
    requires var q := s2.clients[c].request; StartOutcome(s.device, q.app, q.kind, q.force) == OK
    ensures Leads(s, steps, c, n, s')
    ensures c in s'.clients && s'.clients[c].phase == Finished(OK)
    ensures var q := s2.clients[c].request; StartedIn(s.device.value, s'.device.value, q.app, q.kind, uuid)
    ensures s'.registered == s.registered + {uuid}
  {
    FreshIsUnlisted(s, uuid);
    StartAdds(s2.clients[c], s.device);
    var loop, s3 := LoopWrites(s2, c, Adding, n);
    Chained(s, sofar, s2, loop, s3, c, 0, n);
    Go(s, sofar + loop, c, n, s3, Register(c, true));
    steps, s' := sofar + loop + [Register(c, true)], Next(s3, Register(c, true));
  }
}
