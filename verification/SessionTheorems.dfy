/** Whole-run properties of the console protocol, for every interleaving of any number of clients. */
module SessionTheorems {
  import opened Sessions
  import opened SessionProtocol
  import opened SessionInvariant

  lemma ReachableInv(s0: State, steps: seq<Step>)
    requires Init(s0) && ValidRun(s0, steps)
    ensures Inv(Exec(s0, steps))
  {
    InitInv(s0);
    InvRun(s0, steps);
  }

  /** In every reachable state the annotation holds at most one entry per (app, kind) and no id twice. */
  lemma AtMostOneSessionPerSlot(s0: State, steps: seq<Step>)
    requires Init(s0) && ValidRun(s0, steps)
    ensures Unique(Listed(Exec(s0, steps).device.value))
  {
    ReachableInv(s0, steps);
  }

  // ---- The optimistic loop is one atomic update ----------------------------------------------

  /** The updaters of the log, applied one after the other by themselves. */
  function Replay(clients: map<nat, Client>, from: Annotation, log: seq<Entry>): Update {
    if log == [] then Updated(from)
    else
      var e := log[|log| - 1];
      match Replay(clients, from, log[..|log| - 1])
      case Updated(value) => if e.client in clients then Apply(UpdaterOf(clients[e.client], e.adds), value) else Undecodable
      case failed => failed
  }

  predicate ExactlyOnce(log: seq<Entry>, c: nat, adds: bool) {
    exists i :: 0 <= i < |log| && log[i].client == c && log[i].adds == adds
      && forall j :: 0 <= j < |log| && j != i ==> !(log[j].client == c && log[j].adds == adds)
  }

  lemma {:induction false} ChainReplays(clients: map<nat, Client>, from: Annotation, log: seq<Entry>, to: Annotation)
    requires Chain(from, log, to)
    requires forall e :: e in log ==> EntryOk(clients, e)
    ensures Replay(clients, from, log) == Updated(to)
  {
    if log != [] {
      var e := log[|log| - 1];
      assert EntryOk(clients, e);
      ChainReplays(clients, from, log[..|log| - 1], e.before);
    }
  }

  lemma OnceLogged(log: seq<Entry>, c: nat, adds: bool)
    requires Distinct(log) && HasEntry(log, c, adds)
    ensures ExactlyOnce(log, c, adds)
  {
    var e :| e in log && e.client == c && e.adds == adds;
    var i :| 0 <= i < |log| && log[i] == e;
  }

  /** The current value is what the logged updaters produce when run one at a time from the initial value.
      A start or close that reports success is in that log exactly once, whatever retries it took, and a
      rollback that reports success likewise. A client still looping has left no trace in it. */
  lemma LoopRefinesAtomicUpdate(s0: State, steps: seq<Step>, c: nat)
    requires Init(s0) && ValidRun(s0, steps) && c in Exec(s0, steps).clients
    ensures var s := Exec(s0, steps);
      var cl := s.clients[c];
      && Replay(s.clients, s.initial, s.log) == Updated(s.device.value)
      && (cl.phase == Finished(OK) ==> ExactlyOnce(s.log, c, cl.request.Start?))
      && (cl.rollback.Succeeded? ==> ExactlyOnce(s.log, c, false))
      && ((cl.phase.Reading? || cl.phase.Writing?) ==> !HasEntry(s.log, c, cl.phase.job.Adding?))
  {
    ReachableInv(s0, steps);
    var s := Exec(s0, steps);
    ChainReplays(s.clients, s.initial, s.log, s.device.value);
    assert ClientOk(s, c);
    if s.clients[c].phase == Finished(OK) {
      OnceLogged(s.log, c, s.clients[c].request.Start?);
    }
    if s.clients[c].rollback.Succeeded? {
      OnceLogged(s.log, c, false);
    }
  }

  /** The entry's client turned the entry's old value, current at that moment, into its new one. */
  predicate TakesEffect(s: State, step: Step, e: Entry)
    requires Enabled(s, step)
  {
    && By(step, e.client)
    && s.device.value == e.before && s.device.flags == e.flags
    && Next(s, step).device.value == e.after
  }

  predicate TakesEffectAt(s: State, steps: seq<Step>, k: nat, e: Entry)
    requires ValidRun(s, steps) && k < |steps|
  {
    RunPrefix(s, steps, k);
    TakesEffect(Exec(s, steps[..k]), steps[k], e)
  }

  lemma NewEntryTakesEffect(s: State, step: Step, e: Entry)
    requires Inv(s) && Enabled(s, step) && e !in s.log && e in Next(s, step).log
    ensures TakesEffect(s, step, e)
  {
    if Logs(s, step) {
      LoggedEntry(s, step);
    } else {
      QuietStep(s, step);
    }
  }

  lemma {:induction false} NewEntriesAreMoments(s: State, steps: seq<Step>, e: Entry)
    requires Inv(s) && ValidRun(s, steps) && e !in s.log && e in Exec(s, steps).log
    ensures exists k: nat :: k < |steps| && TakesEffectAt(s, steps, k, e)
    decreases |steps|
  {
    var s' := Next(s, steps[0]);
    InvStep(s, steps[0]);
    if e in s'.log {
      NewEntryTakesEffect(s, steps[0], e);
      assert steps[..0] == [];
      assert TakesEffectAt(s, steps, 0, e);
    } else {
      NewEntriesAreMoments(s', steps[1..], e);
      var k: nat :| k < |steps| - 1 && TakesEffectAt(s', steps[1..], k, e);
      RunPrefix(s, steps, k + 1);
      assert steps[..k + 1][1..] == steps[1..][..k];
      assert TakesEffectAt(s, steps, k + 1, e);
    }
  }

  /** Every log entry is a real moment of the run: the value it started from was the current one, and for
      a start the device passed all three guards at that very version. */
  lemma EntriesAreMoments(s0: State, steps: seq<Step>, e: Entry)
    requires Init(s0) && ValidRun(s0, steps) && e in Exec(s0, steps).log
    ensures exists k: nat :: k < |steps| && TakesEffectAt(s0, steps, k, e)
    ensures e.adds ==> e.flags.Ready()
  {
    ReachableInv(s0, steps);
    assert EntryOk(Exec(s0, steps).clients, e);
    InitInv(s0);
    NewEntriesAreMoments(s0, steps, e);
  }

  // ---- How a session leaves the annotation ---------------------------------------------------

  /** The step removed the session by its own id, or took its slot over and says so in the new entry and
      in the variable the start reports. */
  predicate Departs(s: State, step: Step, x: Session)
    requires Enabled(s, step)
  {
    && step.Put? && Commits(step.outcome)
    && var cl := s.clients[step.c];
       var s' := Next(s, step);
       if cl.phase.job.Adding?
       then
         && cl.request.Start? && cl.request.force && InSlot(x, cl.request.app, cl.request.kind)
         && Session(cl.id, x.app, x.kind, x.id) in Listed(s'.device.value)
         && s'.clients[step.c].reported == x.id
       else cl.id == x.id
  }

  lemma DepartureStep(s: State, step: Step, x: Session)
    requires Inv(s) && Enabled(s, step)
    requires x in Listed(s.device.value) && x !in Listed(Next(s, step).device.value)
    ensures Departs(s, step, x) && Retired(Next(s, step), x.id)
  {
    if !Logs(s, step) {
      QuietStep(s, step);
      assert false;
    }
    LoggedEntry(s, step);
    var cl := s.clients[step.c];
    var u := UpdaterOf(cl, cl.phase.job.Adding?);
    assert ClientOk(s, step.c);
    UpdateDropsOnly(u, s.device.value, x);
    if cl.phase.job.Adding? {
      PendingIsUnlisted(s, step.c);
      UpdateKeepsUnique(u, s.device.value);
      TakenOverIsRetired(s, step, x);
    } else {
      RemovalRetires(s, step);
    }
  }

  lemma TakenOverIsRetired(s: State, step: Step, x: Session)
    requires Inv(s) && Enabled(s, step) && Logs(s, step)
    requires x in Listed(s.device.value) && s.clients[step.c].phase.job.Adding?
    requires !IdListed(Listed(s.device.value), s.clients[step.c].id)
    requires x !in Listed(Next(s, step).device.value)
    ensures Retired(Next(s, step), x.id)
  {
    var s' := Next(s, step);
    LoggedEntry(s, step);
    var u := UpdaterOf(s.clients[step.c], true);
    UpdateKeepsUnique(u, s.device.value);
    IdsKept(s, step);
    forall y | y in Listed(s'.device.value)
      ensures y.id != x.id
    {
      if y in Listed(s.device.value) && y.id == x.id {
        SameIdSameEntry(Listed(s.device.value), x, y);
      }
    }
    forall c | c in s'.clients && s'.clients[c].id == x.id
      ensures !PendingAdd(s'.clients[c])
    {
      ClientIdentity(s, step, c);
      if PendingAdd(s.clients[c]) {
        PendingIsUnlisted(s, c);
      }
    }
  }

  lemma SameIdSameEntry(list: seq<Session>, x: Session, y: Session)
    requires UniqueIds(list) && x in list && y in list && x.id == y.id
    ensures x == y
  {
    var i :| 0 <= i < |list| && list[i] == x;
    var j :| 0 <= j < |list| && list[j] == y;
  }

  lemma DepartsLater(s: State, steps: seq<Step>, k: nat, x: Session)
    requires ValidRun(s, steps) && k + 1 < |steps| && DepartsAt(Next(s, steps[0]), steps[1..], k, x)
    ensures DepartsAt(s, steps, k + 1, x)
  {
    RunPrefix(s, steps, k + 1);
    assert steps[..k + 1][1..] == steps[1..][..k];
  }

  /** A listed session that is no longer listed at the end of a run left at some step of it, either by its
      own removal or by a forced start for the same (app, kind) that names it; and it is never listed again. */
  lemma {:induction false} LeavesOnlyByRemovalOrTakeover(s: State, steps: seq<Step>, x: Session)
    requires Inv(s) && ValidRun(s, steps)
    requires x in Listed(s.device.value) && x !in Listed(Exec(s, steps).device.value)
    ensures exists k: nat :: k < |steps| && DepartsAt(s, steps, k, x)
    ensures Retired(Exec(s, steps), x.id)
    decreases |steps|
  {
    var s' := Next(s, steps[0]);
    InvStep(s, steps[0]);
    if x in Listed(s'.device.value) {
      LeavesOnlyByRemovalOrTakeover(s', steps[1..], x);
      var k: nat :| k < |steps| - 1 && DepartsAt(s', steps[1..], k, x);
      DepartsLater(s, steps, k, x);
    } else {
      DepartureStep(s, steps[0], x);
      RetiredForever(s', steps[1..], x.id);
      assert steps[..0] == [];
      assert DepartsAt(s, steps, 0, x);
    }
  }

  predicate DepartsAt(s: State, steps: seq<Step>, k: nat, x: Session)
    requires ValidRun(s, steps) && k < |steps|
  {
    RunPrefix(s, steps, k);
    Departs(Exec(s, steps[..k]), steps[k], x)
  }

  /** Retirement outlasts every continuation of the run. */
  lemma {:induction false} RetiredForever(s: State, steps: seq<Step>, id: string)
    requires Inv(s) && ValidRun(s, steps) && Retired(s, id)
    ensures Retired(Exec(s, steps), id)
    decreases |steps|
  {
    if steps != [] {
      RetiredStable(s, steps[0], id);
      InvStep(s, steps[0]);
      RetiredForever(Next(s, steps[0]), steps[1..], id);
    }
  }

  /** For a session listed at one point of a run and not at a later one: some step in between removed it by its own
      id or took its slot over and named it, and its id is not listed at any point of any continuation. */
  lemma GoneWithCauseAndForGood(s0: State, before: seq<Step>, between: seq<Step>, after: seq<Step>, x: Session)
    requires Init(s0) && ValidRun(s0, before) && ValidRun(Exec(s0, before), between)
    requires ValidRun(Exec(Exec(s0, before), between), after)
    requires x in Listed(Exec(s0, before).device.value)
    requires x !in Listed(Exec(Exec(s0, before), between).device.value)
    ensures exists k: nat :: k < |between| && DepartsAt(Exec(s0, before), between, k, x)
    ensures !IdListed(Listed(Exec(Exec(Exec(s0, before), between), after).device.value), x.id)
  {
    var s := Exec(s0, before);
    ReachableInv(s0, before);
    LeavesOnlyByRemovalOrTakeover(s, between, x);
    InvRun(s, between);
    RetiredForever(Exec(s, between), after, x.id);
  }

  /** A logged update started from a list without repeats, as any list of the run is. */
  lemma LoggedListsAreUnique(s0: State, steps: seq<Step>, e: Entry)
    requires Init(s0) && ValidRun(s0, steps) && e in Exec(s0, steps).log
    ensures Unique(Listed(e.before))
  {
    EntriesAreMoments(s0, steps, e);
    var k: nat :| k < |steps| && TakesEffectAt(s0, steps, k, e);
    RunPrefix(s0, steps, k);
    AtMostOneSessionPerSlot(s0, steps[..k]);
  }

  /** What a forced start reports is the occupant of its slot at the moment its write took effect, and the
      entry it wrote carries the same id; an empty report means the slot was free. */
  lemma ReportIsTheEvicted(s0: State, steps: seq<Step>, e: Entry)
    requires Init(s0) && ValidRun(s0, steps) && e in Exec(s0, steps).log && e.adds
    ensures e.client in Exec(s0, steps).clients
    ensures var cl := Exec(s0, steps).clients[e.client];
      cl.request.Start? && (cl.request.force ==>
        && Session(cl.id, cl.request.app, cl.request.kind, cl.reported) in Listed(e.after)
        && (forall x :: x in Listed(e.before) && InSlot(x, cl.request.app, cl.request.kind) ==> cl.reported == x.id)
        && (!SlotTaken(Listed(e.before), cl.request.app, cl.request.kind) ==> cl.reported == ""))
  {
    ReachableInv(s0, steps);
    var s := Exec(s0, steps);
    assert EntryOk(s.clients, e);
    var cl := s.clients[e.client];
    if cl.request.force {
      var app, kind := cl.request.app, cl.request.kind;
      var list := Listed(e.before);
      var after := Listed(e.after);
      assert after[|after| - 1] == Session(cl.id, app, kind, cl.reported);
      LoggedListsAreUnique(s0, steps, e);
      forall x | x in list && InSlot(x, app, kind)
        ensures cl.reported == x.id
      {
        OccupantIsTheEntry(list, x);
      }
      if !SlotTaken(list, app, kind) {
        NoOccupant(list, app, kind);
      }
    }
  }

  // ---- Listing, registration and rollback ----------------------------------------------------

  /** A listed session is registered, was there when the run began, or belongs to a start that is still
      running or whose rollback failed. */
  predicate Accounted(s: State, id: string) {
    || id in s.registered
    || id in Ids(Listed(s.initial))
    || exists c :: c in s.clients && s.clients[c].request.Start? && s.clients[c].id == id
                   && (!s.clients[c].phase.Finished? || s.clients[c].rollback.Failed?)
  }

  lemma ListedIsAccounted(s0: State, steps: seq<Step>, x: Session)
    requires Init(s0) && ValidRun(s0, steps) && x in Listed(Exec(s0, steps).device.value)
    ensures Accounted(Exec(s0, steps), x.id)
  {
    ReachableInv(s0, steps);
    var s := Exec(s0, steps);
    assert IdListed(Listed(s.device.value), x.id);
    assert Provenance(s, x.id);
    if x.id !in Ids(Listed(s.initial)) {
      var c :| c in s.clients && s.clients[c].request.Start? && s.clients[c].id == x.id && HasEntry(s.log, c, true);
      assert ClientOk(s, c);
    }
  }

  /** A session loses its registration only after its entry has left the annotation for good. */
  lemma UnregisteredAfterRemoval(s0: State, steps: seq<Step>, step: Step, id: string)
    requires Init(s0) && ValidRun(s0, steps) && Enabled(Exec(s0, steps), step)
    requires id in Exec(s0, steps).registered && id !in Next(Exec(s0, steps), step).registered
    ensures Retired(Exec(s0, steps), id)
  {
    ReachableInv(s0, steps);
    assert ClientOk(Exec(s0, steps), step.c);
  }

  /** A start that failed and whose rollback reported success is never listed afterwards, even when its
      write had been committed behind an error. */
  lemma RolledBackStartIsNeverListed(s0: State, steps: seq<Step>, c: nat, later: seq<Step>)
    requires Init(s0) && ValidRun(s0, steps) && c in Exec(s0, steps).clients
    requires Exec(s0, steps).clients[c].rollback.Succeeded?
    requires ValidRun(Exec(s0, steps), later)
    ensures !IdListed(Listed(Exec(Exec(s0, steps), later).device.value), Exec(s0, steps).clients[c].id)
  {
    ReachableInv(s0, steps);
    var s := Exec(s0, steps);
    assert ClientOk(s, c);
    RetiredForever(s, later, s.clients[c].id);
  }

  // ---- Every call returns --------------------------------------------------------------------

  /** An upper bound on the calls a client still has to make. */
  function Remaining(cl: Client): int {
    match cl.phase
    case Checking => 42
    case Reading(job, tries) => 2 * (MAX_TRIES - tries) + if job.Adding? then 21 else if job.Closing? then 1 else 0
    case Writing(job, tries, _, _) => 2 * (MAX_TRIES - tries) - 1 + if job.Adding? then 21 else if job.Closing? then 1 else 0
    case Registering => 21
    case Unregistering => 1
    case Finished(_) => 0
  }

  function CallsOf(steps: seq<Step>, c: nat): nat {
    if steps == [] then 0 else (if By(steps[0], c) then 1 else 0) + CallsOf(steps[1..], c)
  }

  lemma GetProgress(cl: Client, d: Device, found: bool)
    requires PhaseOk(cl) && cl.phase.Reading?
    ensures 0 <= Remaining(AfterGet(cl, d, found)) < Remaining(cl)
  {
  }

  lemma PutProgress(cl: Client, outcome: PutOutcome)
    requires PhaseOk(cl) && cl.phase.Writing?
    ensures 0 <= Remaining(AfterPut(cl, outcome)) < Remaining(cl)
  {
  }

  lemma CallProgress(s: State, step: Step, c: nat)
    requires Inv(s) && Enabled(s, step) && c in s.clients
    ensures c in Next(s, step).clients
    ensures 0 <= Remaining(Next(s, step).clients[c]) <= Remaining(s.clients[c]) - if By(step, c) then 1 else 0
  {
    assert ClientOk(s, c);
    ClientIdentity(s, step, c);
    if By(step, c) {
      match step
      case Get(_, found) => GetProgress(s.clients[c], s.device, found);
      case Put(_, outcome) => PutProgress(s.clients[c], outcome);
      case _ =>
    }
  }

  lemma {:induction false} CallsAreBounded(s: State, steps: seq<Step>, c: nat)
    requires Inv(s) && ValidRun(s, steps) && c in s.clients
    ensures CallsOf(steps, c) <= Remaining(s.clients[c]) <= 42
    decreases |steps|
  {
    assert ClientOk(s, c);
    if steps != [] {
      CallProgress(s, steps[0], c);
      InvStep(s, steps[0]);
      CallsAreBounded(Next(s, steps[0]), steps[1..], c);
    }
  }

  /** No interference can keep a client busy: from its first moment on, a call of StartSession or
      CloseSession makes at most 42 service calls, whatever the others do. */
  lemma EveryCallReturns(s0: State, before: seq<Step>, after: seq<Step>, c: nat)
    requires Init(s0) && ValidRun(s0, before) && c in Exec(s0, before).clients
    requires ValidRun(Exec(s0, before), after)
    ensures CallsOf(after, c) <= 42
  {
    ReachableInv(s0, before);
    CallsAreBounded(Exec(s0, before), after, c);
  }
}
