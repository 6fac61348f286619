/** The invariant of the console protocol and the proof that every step of every client keeps it. */
module SessionInvariant {
  import opened Sessions
  import opened SessionProtocol

  predicate HasEntry(log: seq<Entry>, c: nat, adds: bool) {
    exists e :: e in log && e.client == c && e.adds == adds
  }

  /** The start may still write its entry into the annotation. */
  predicate PendingAdd(cl: Client) {
    && cl.request.Start?
    && (cl.phase.Checking? || ((cl.phase.Reading? || cl.phase.Writing?) && cl.phase.job.Adding?))
  }

  /** The id was handed out, is not listed, and nobody is left who could list it. */
  ghost predicate Retired(s: State, id: string) {
    && id in s.used
    && !IdListed(Listed(s.device.value), id)
    && forall c :: c in s.clients && s.clients[c].id == id ==> !PendingAdd(s.clients[c])
  }

  /** A client holding a version that is still current knows what its updater makes of the current value. */
  predicate WriteOk(d: Device, cl: Client) {
    cl.phase.Writing? ==>
      var u := UpdaterOf(cl, cl.phase.job.Adding?);
      && cl.phase.seen <= d.version
      && (cl.phase.seen == d.version ==>
            && Apply(u, d.value) == Updated(cl.phase.next)
            && cl.phase.next != d.value
            && (cl.phase.job.Adding? ==> d.flags.Ready())
            && cl.reported == Reported(u, d.value, cl.reported))
  }

  predicate PhaseOk(cl: Client) {
    && (cl.phase.Reading? || cl.phase.Writing? ==> cl.phase.tries < MAX_TRIES && (cl.request.Close? <==> cl.phase.job.Closing?))
    && (cl.phase.Unregistering? ==> cl.request.Close?)
    && (cl.phase.Checking? || cl.phase.Registering? ==> cl.request.Start?)
    && (!cl.phase.Finished? || cl.request.Close? ==> cl.rollback.NotAttempted?)
    && ((cl.phase.Reading? || cl.phase.Writing?) && cl.phase.job.RollingBack? ==> cl.phase.job.outcome != OK)
  }

  ghost predicate StartOk(s: State, c: nat, cl: Client) {
    && (PendingAdd(cl) ==> !HasEntry(s.log, c, true))
    && (cl.phase.Registering? ==> HasEntry(s.log, c, true))
    && (cl.rollback.NotAttempted? ==> !HasEntry(s.log, c, false))
    && (cl.rollback.Succeeded? ==> HasEntry(s.log, c, false))
    && (cl.phase.Finished? && cl.rollback.NotAttempted? ==>
          if cl.phase.status.OK?
          then HasEntry(s.log, c, true) && (cl.id in s.registered || Retired(s, cl.id))
          else !HasEntry(s.log, c, true))
    && (cl.phase == Finished(OK) ==> cl.rollback.NotAttempted?)
  }

  ghost predicate CloseOk(s: State, c: nat, cl: Client)
    requires cl.request.Close?
  {
    var of := cl.request.of;
    && of in s.clients && s.clients[of].request.Start?
    && s.clients[of].phase == Finished(OK) && s.clients[of].id == cl.id
    && (cl.phase.Reading? || cl.phase.Writing? ==> !HasEntry(s.log, c, false))
    && (cl.phase.Unregistering? || cl.phase == Finished(OK) ==> HasEntry(s.log, c, false))
    && !HasEntry(s.log, c, true)
  }

  ghost predicate ClientOk(s: State, c: nat)
    requires c in s.clients
  {
    var cl := s.clients[c];
    && PhaseOk(cl) && WriteOk(s.device, cl)
    && (if cl.request.Start? then StartOk(s, c, cl) else CloseOk(s, c, cl))
    && (HasEntry(s.log, c, false) ==> Retired(s, cl.id))
  }

  /** Where a listed session comes from. */
  ghost predicate Provenance(s: State, id: string) {
    || id in Ids(Listed(s.initial))
    || exists c :: c in s.clients && s.clients[c].request.Start? && s.clients[c].id == id && HasEntry(s.log, c, true)
  }

  ghost predicate ListOk(s: State) {
    && Unique(Listed(s.device.value))
    && forall x :: x in Listed(s.device.value) ==> x.id in s.used && Provenance(s, x.id)
  }

  ghost predicate IdsOk(s: State) {
    && Ids(Listed(s.initial)) <= s.used
    && (forall c :: c in s.clients ==> s.clients[c].id in s.used)
    && (forall c :: c in s.clients && s.clients[c].request.Start? ==> s.clients[c].id !in Ids(Listed(s.initial)))
    && (forall c, d :: (c in s.clients && d in s.clients && c != d
                        && s.clients[c].request.Start? && s.clients[d].request.Start?)
                       ==> s.clients[c].id != s.clients[d].id)
  }

  predicate EntryOk(clients: map<nat, Client>, e: Entry) {
    && e.client in clients
    && var cl := clients[e.client];
    && var u := UpdaterOf(cl, e.adds);
    && (e.adds ==> cl.request.Start?)
    && Apply(u, e.before) == Updated(e.after)
    && (e.adds ==> e.flags.Ready() && e.before != e.after && !PendingAdd(cl)
                   && cl.reported == Reported(u, e.before, cl.reported))
  }

  predicate Distinct(log: seq<Entry>) {
    forall i, j :: 0 <= i < j < |log| ==> !(log[i].client == log[j].client && log[i].adds == log[j].adds)
  }

  /** The log leads from one value to another, each entry picking up where the one before it left off. */
  predicate Chain(from: Annotation, log: seq<Entry>, to: Annotation) {
    if log == [] then from == to
    else
      var last := log[|log| - 1];
      last.after == to && Chain(from, log[..|log| - 1], last.before)
  }

  ghost predicate LogOk(s: State) {
    && Distinct(s.log)
    && Chain(s.initial, s.log, s.device.value)
    && forall e :: e in s.log ==> EntryOk(s.clients, e)
  }

  ghost predicate Inv(s: State) {
    && ListOk(s) && IdsOk(s) && LogOk(s)
    && forall c :: c in s.clients ==> ClientOk(s, c)
  }

  lemma InitInv(s: State)
    requires Init(s)
    ensures Inv(s)
  {
  }

  // ---- Log and list facts --------------------------------------------------------------------

  lemma HasEntryAppend(log: seq<Entry>, e: Entry, c: nat, adds: bool)
    ensures HasEntry(log + [e], c, adds) <==> HasEntry(log, c, adds) || (e.client == c && e.adds == adds)
  {
    if e.client == c && e.adds == adds {
      assert (log + [e])[|log|] == e;
    }
    if HasEntry(log, c, adds) {
      var f :| f in log && f.client == c && f.adds == adds;
      assert f in log + [e];
    }
  }

  lemma LogAppend(from: Annotation, log: seq<Entry>, to: Annotation, e: Entry)
    requires Chain(from, log, to) && Distinct(log)
    requires e.before == to && !HasEntry(log, e.client, e.adds)
    ensures Chain(from, log + [e], e.after) && Distinct(log + [e])
  {
    assert (log + [e])[..|log|] == log;
    forall i | 0 <= i < |log|
      ensures !(log[i].client == e.client && log[i].adds == e.adds)
    {
      assert log[i] in log;
    }
  }

  /** The entry a step writes into the log, if any. */
  predicate Logs(s: State, step: Step)
    requires Enabled(s, step)
  {
    (step.Get? && NothingToDo(s.clients[step.c], s.device, step.found)) || (step.Put? && Commits(step.outcome))
  }

  /** What a logging step logs is the client's updater applied to the value current at that moment. */
  lemma LoggedEntry(s: State, step: Step)
    requires Inv(s) && Enabled(s, step) && Logs(s, step)
    ensures var s' := Next(s, step);
      var cl := s.clients[step.c];
      var adds := cl.phase.job.Adding?;
      && s'.log == s.log + [Entry(step.c, adds, s.device.value, s'.device.value, s.device.flags)]
      && Apply(UpdaterOf(cl, adds), s.device.value) == Updated(s'.device.value)
      && (adds ==> cl.request.Start? && s.device.flags.Ready() && PendingAdd(cl))
      && !HasEntry(s.log, step.c, adds)
  {
    assert ClientOk(s, step.c);
  }

  /** A step that logs nothing leaves the annotation alone. */
  lemma QuietStep(s: State, step: Step)
    requires Enabled(s, step) && !Logs(s, step)
    ensures Next(s, step).log == s.log && Next(s, step).device.value == s.device.value
  {
  }

  /** A start that has not written yet is not listed. */
  lemma PendingIsUnlisted(s: State, c: nat)
    requires Inv(s) && c in s.clients && PendingAdd(s.clients[c])
    ensures !IdListed(Listed(s.device.value), s.clients[c].id)
  {
    assert ClientOk(s, c);
    forall x | x in Listed(s.device.value)
      ensures x.id != s.clients[c].id
    {
      assert Provenance(s, x.id);
    }
  }

  /** Steps never change who a client is. */
  lemma ClientIdentity(s: State, step: Step, c: nat)
    requires Enabled(s, step) && c in s.clients
    ensures var s' := Next(s, step);
      && c in s'.clients && s'.clients[c].request == s.clients[c].request && s'.clients[c].id == s.clients[c].id
      && (PendingAdd(s'.clients[c]) ==> PendingAdd(s.clients[c]))
      && (!By(step, c) ==> s'.clients[c] == s.clients[c])
      && (s.clients[c].phase.Finished? ==> s'.clients[c] == s.clients[c])
  {
  }

  /** A retired id stays retired. */
  lemma RetiredStable(s: State, step: Step, id: string)
    requires Inv(s) && Enabled(s, step) && Retired(s, id)
    ensures Retired(Next(s, step), id)
  {
    var s' := Next(s, step);
    forall c | c in s'.clients && s'.clients[c].id == id
      ensures !PendingAdd(s'.clients[c])
    {
      if c in s.clients {
        ClientIdentity(s, step, c);
      }
    }
    if Logs(s, step) {
      LoggedEntry(s, step);
      var u := UpdaterOf(s.clients[step.c], s.clients[step.c].phase.job.Adding?);
      if !u.Remove? {
        PendingIsUnlisted(s, step.c);
      }
      UpdateKeepsUnique(u, s.device.value);
    } else {
      QuietStep(s, step);
    }
  }

  // ---- Preservation --------------------------------------------------------------------------

  lemma IdsKept(s: State, step: Step)
    requires Inv(s) && Enabled(s, step)
    ensures IdsOk(Next(s, step)) && s.used <= Next(s, step).used && Next(s, step).initial == s.initial
  {
    var s' := Next(s, step);
    UsedGrows(s, step);
    forall c | c in s'.clients
      ensures s'.clients[c].id in s'.used
      ensures s'.clients[c].request.Start? ==> s'.clients[c].id !in Ids(Listed(s.initial))
    {
      ClientOrigin(s, step, c);
    }
    forall c, d | c in s'.clients && d in s'.clients && c != d && s'.clients[c].request.Start? && s'.clients[d].request.Start?
      ensures s'.clients[c].id != s'.clients[d].id
    {
      ClientOrigin(s, step, c);
      ClientOrigin(s, step, d);
    }
  }

  lemma UsedGrows(s: State, step: Step)
    requires Enabled(s, step)
    ensures Next(s, step).initial == s.initial
    ensures Next(s, step).used == s.used + if step.BeginStart? then {step.uuid} else {}
  {
  }

  /** A client is an old one with its identity intact, a start with a new id, or a close of a known id. */
  lemma ClientOrigin(s: State, step: Step, c: nat)
    requires Enabled(s, step) && c in Next(s, step).clients
    ensures var cl := Next(s, step).clients[c];
      if c in s.clients then cl.id == s.clients[c].id && cl.request == s.clients[c].request
      else By(step, c) && if step.BeginStart? then cl.id == step.uuid
                          else cl.request.Close? && step.of in s.clients && cl.id == s.clients[step.of].id
  {
    if c in s.clients {
      ClientIdentity(s, step, c);
    }
  }

  lemma ProvenanceKept(s: State, step: Step, id: string)
    requires Inv(s) && Enabled(s, step) && Provenance(s, id)
    ensures Provenance(Next(s, step), id)
  {
    var s' := Next(s, step);
    if id !in Ids(Listed(s.initial)) {
      var c :| c in s.clients && s.clients[c].request.Start? && s.clients[c].id == id && HasEntry(s.log, c, true);
      ClientIdentity(s, step, c);
      if Logs(s, step) {
        LoggedEntry(s, step);
        HasEntryAppend(s.log, s'.log[|s.log|], c, true);
      } else {
        QuietStep(s, step);
      }
      assert HasEntry(s'.log, c, true);
    }
  }

  lemma ListKept(s: State, step: Step)
    requires Inv(s) && Enabled(s, step)
    ensures ListOk(Next(s, step))
  {
    var s' := Next(s, step);
    IdsKept(s, step);
    forall x | x in Listed(s.device.value)
      ensures x.id in s'.used && Provenance(s', x.id)
    {
      ProvenanceKept(s, step, x.id);
    }
    if Logs(s, step) {
      LoggedEntry(s, step);
      var cl := s.clients[step.c];
      var u := UpdaterOf(cl, cl.phase.job.Adding?);
      if !u.Remove? {
        PendingIsUnlisted(s, step.c);
        ClientIdentity(s, step, step.c);
        HasEntryAppend(s.log, s'.log[|s.log|], step.c, true);
        assert Provenance(s', cl.id);
      }
      UpdateKeepsUnique(u, s.device.value);
    } else {
      QuietStep(s, step);
    }
  }

  /** A logged entry stays valid: its client keeps its identity and, once past its write, its report. */
  lemma EntryKept(s: State, step: Step, e: Entry)
    requires Inv(s) && Enabled(s, step) && e in s.log
    ensures EntryOk(Next(s, step).clients, e)
  {
    assert EntryOk(s.clients, e);
    ClientIdentity(s, step, e.client);
    if By(step, e.client) && e.adds {
      assert ClientOk(s, e.client);
    }
  }

  lemma NewEntryOk(s: State, step: Step)
    requires Inv(s) && Enabled(s, step) && Logs(s, step)
    ensures EntryOk(Next(s, step).clients, Next(s, step).log[|s.log|])
  {
    LoggedEntry(s, step);
    ClientIdentity(s, step, step.c);
    assert ClientOk(s, step.c);
    var cl := s.clients[step.c];
    if cl.phase.job.Adding? {
      PendingIsUnlisted(s, step.c);
      AddingChanges(UpdaterOf(cl, true), s.device.value);
    }
  }

  lemma LogKept(s: State, step: Step)
    requires Inv(s) && Enabled(s, step)
    ensures LogOk(Next(s, step))
  {
    var s' := Next(s, step);
    forall e | e in s.log
      ensures EntryOk(s'.clients, e)
    {
      EntryKept(s, step, e);
    }
    if Logs(s, step) {
      LoggedEntry(s, step);
      NewEntryOk(s, step);
      LogAppend(s.initial, s.log, s.device.value, s'.log[|s.log|]);
    } else {
      QuietStep(s, step);
    }
  }

  /** Entries of other clients do not come or go. */
  lemma OtherEntries(s: State, step: Step, c: nat, adds: bool)
    requires Inv(s) && Enabled(s, step) && !By(step, c)
    ensures HasEntry(Next(s, step).log, c, adds) <==> HasEntry(s.log, c, adds)
  {
    if Logs(s, step) {
      LoggedEntry(s, step);
      HasEntryAppend(s.log, Next(s, step).log[|s.log|], c, adds);
    } else {
      QuietStep(s, step);
    }
  }

  /** Only a session whose entry is gone for good loses its registration. */
  lemma RegistrationKept(s: State, step: Step, id: string)
    requires Inv(s) && Enabled(s, step) && (id in s.registered || Retired(s, id))
    ensures id in Next(s, step).registered || Retired(Next(s, step), id)
  {
    if step.Unregister? {
      assert ClientOk(s, step.c);
    }
    if Retired(s, id) {
      RetiredStable(s, step, id);
    }
  }

  lemma OtherClientKept(s: State, step: Step, c: nat)
    requires Inv(s) && Enabled(s, step) && c in s.clients && !By(step, c)
    ensures c in Next(s, step).clients && ClientOk(Next(s, step), c)
  {
    var cl := s.clients[c];
    assert ClientOk(s, c);
    ClientIdentity(s, step, c);
    OtherEntries(s, step, c, true);
    OtherEntries(s, step, c, false);
    if HasEntry(s.log, c, false) {
      RetiredStable(s, step, cl.id);
    }
    if cl.request.Close? {
      ClientIdentity(s, step, cl.request.of);
    } else if cl.phase == Finished(OK) {
      RegistrationKept(s, step, cl.id);
    }
  }

  /** After a removal took effect its id is retired. */
  lemma RemovalRetires(s: State, step: Step)
    requires Inv(s) && Enabled(s, step) && Logs(s, step) && !s.clients[step.c].phase.job.Adding?
    ensures Retired(Next(s, step), s.clients[step.c].id)
  {
    var s' := Next(s, step);
    var cl := s.clients[step.c];
    LoggedEntry(s, step);
    RemoveRemoves(cl.id, s.device.value);
    IdsKept(s, step);
    assert ClientOk(s, step.c);
    forall c | c in s'.clients && s'.clients[c].id == cl.id
      ensures !PendingAdd(s'.clients[c])
    {
      ClientIdentity(s, step, c);
    }
  }

  /** Logging ends the loop: the client goes on, or fails with its write possibly in place. */
  lemma LoggingMoves(s: State, step: Step)
    requires Inv(s) && Enabled(s, step) && Logs(s, step)
    ensures var s' := Next(s, step);
      var cl := s.clients[step.c];
      && step.c in s'.clients && s'.registered == s.registered
      && exists told: string :: var me := cl.(reported := told);
           s'.clients[step.c] == AfterSuccess(me, cl.phase.job) || s'.clients[step.c] == AfterFailure(me, cl.phase.job, Internal)
  {
    var cl := s.clients[step.c];
    var told := Next(s, step).clients[step.c].reported;
    assert step.Put? ==> cl.(reported := told) == cl;
    assert var me := cl.(reported := told);
      Next(s, step).clients[step.c] == AfterSuccess(me, cl.phase.job)
      || Next(s, step).clients[step.c] == AfterFailure(me, cl.phase.job, Internal);
  }

  /** The client's own obligations after its read or write logged its entry. */
  lemma SelfKeptWhenLogging(s: State, step: Step)
    requires Inv(s) && Enabled(s, step) && Logs(s, step)
    ensures step.c in Next(s, step).clients && ClientOk(Next(s, step), step.c)
  {
    var s' := Next(s, step);
    var c := step.c;
    var cl := s.clients[c];
    assert ClientOk(s, c);
    LoggedEntry(s, step);
    LoggingMoves(s, step);
    HasEntryAppend(s.log, s'.log[|s.log|], c, true);
    HasEntryAppend(s.log, s'.log[|s.log|], c, false);
    if !cl.phase.job.Adding? {
      RemovalRetires(s, step);
    }
    if cl.request.Close? {
      ClientIdentity(s, step, cl.request.of);
    }
  }

  /** A read that logs nothing leads to a write that fits the current device, or to a failure. */
  lemma QuietGetMoves(cl: Client, d: Device, found: bool)
    requires cl.phase.Reading? && !NothingToDo(cl, d, found)
    ensures var me := cl.(reported := AfterGet(cl, d, found).reported);
      var cl' := AfterGet(cl, d, found);
      || (cl'.phase.Writing? && WriteOk(d, cl')
          && cl' == me.(phase := Writing(cl.phase.job, cl.phase.tries, d.version, cl'.phase.next)))
      || exists status: Status :: status != OK && cl' == AfterFailure(me, cl.phase.job, status)
  {
    var cl' := AfterGet(cl, d, found);
    if !cl'.phase.Writing? {
      var me := cl.(reported := cl'.reported);
      assert || cl' == AfterFailure(me, cl.phase.job, Unreadable)
             || cl' == AfterFailure(me, cl.phase.job, Conflict)
             || cl' == AfterFailure(me, cl.phase.job, Internal);
    }
  }

  lemma SelfKeptByQuietGet(s: State, c: nat, found: bool)
    requires Inv(s) && Enabled(s, Get(c, found)) && !Logs(s, Get(c, found))
    ensures c in Next(s, Get(c, found)).clients && ClientOk(Next(s, Get(c, found)), c)
  {
    assert ClientOk(s, c);
    var cl := s.clients[c];
    QuietGetMoves(cl, s.device, found);
    if cl.request.Close? {
      ClientIdentity(s, Get(c, found), cl.request.of);
    }
  }

  lemma SelfKeptByQuietPut(s: State, c: nat, outcome: PutOutcome)
    requires Inv(s) && Enabled(s, Put(c, outcome)) && !Logs(s, Put(c, outcome))
    ensures c in Next(s, Put(c, outcome)).clients && ClientOk(Next(s, Put(c, outcome)), c)
  {
    assert ClientOk(s, c);
    var cl := s.clients[c];
    if cl.request.Close? {
      ClientIdentity(s, Put(c, outcome), cl.request.of);
    }
  }

  lemma SelfKept(s: State, step: Step)
    requires Inv(s) && Enabled(s, step) && !step.Environment?
    ensures step.c in Next(s, step).clients && ClientOk(Next(s, step), step.c)
  {
    var c := step.c;
    if Logs(s, step) {
      SelfKeptWhenLogging(s, step);
    } else if step.Get? {
      SelfKeptByQuietGet(s, c, step.found);
    } else if step.Put? {
      SelfKeptByQuietPut(s, c, step.outcome);
    } else if step.BeginStart? || step.BeginClose? {
      NewcomerHasNoEntries(s, c);
    } else {
      assert ClientOk(s, c);
      ClientIdentity(s, step, c);
      if HasEntry(s.log, c, false) {
        RetiredStable(s, step, s.clients[c].id);
      }
      if s.clients[c].request.Close? {
        ClientIdentity(s, step, s.clients[c].request.of);
      }
    }
  }

  lemma NewcomerHasNoEntries(s: State, c: nat)
    requires Inv(s) && c !in s.clients
    ensures !HasEntry(s.log, c, true) && !HasEntry(s.log, c, false)
  {
    forall e | e in s.log
      ensures e.client != c
    {
      assert EntryOk(s.clients, e);
    }
  }

  lemma InvStep(s: State, step: Step)
    requires Inv(s) && Enabled(s, step)
    ensures Inv(Next(s, step))
  {
    ListKept(s, step);
    IdsKept(s, step);
    LogKept(s, step);
    var s' := Next(s, step);
    forall c | c in s'.clients
      ensures ClientOk(s', c)
    {
      if By(step, c) {
        SelfKept(s, step);
      } else {
        OtherClientKept(s, step, c);
      }
    }
  }

  lemma {:induction false} InvRun(s: State, steps: seq<Step>)
    requires Inv(s) && ValidRun(s, steps)
    ensures Inv(Exec(s, steps))
    decreases |steps|
  {
    if steps != [] {
      InvStep(s, steps[0]);
      InvRun(Next(s, steps[0]), steps[1..]);
    }
  }
}
