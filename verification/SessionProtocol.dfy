/** The application console protocol as a state machine.

    Any number of clients run StartSession and CloseSession against one versioned device record. Every
    call into the device service or the session registration is one atomic step, and any client may step
    next. The environment may rewrite the rest of the record at any time; every change of the record bumps
    its version, and only these clients write the session annotation. */
module SessionProtocol {
  import opened Sessions

  /** How often the read-modify-write loop is tried before it gives up. */
  const MAX_TRIES: nat := 10

  const SERIAL := "serial"
  const VNC := "vnc"

  /** The three conditions that keep a device from accepting a new session. */
  datatype Flags = Flags(awaitingReconnect: bool, conflictPaused: bool, decommissioning: bool) {
    predicate Ready() {
      !awaitingReconnect && !conflictPaused && !decommissioning
    }
  }

  datatype Device = Device(version: nat, flags: Flags, value: Annotation)

  datatype Status = OK | BadRequest | Conflict | Internal | Unreadable

  /** What a run of the read-modify-write loop is for. A rollback remembers the status it will report. */
  datatype Job = Adding | RollingBack(outcome: Status) | Closing

  /** A client's program counter: the service call it makes next, or its result. */
  datatype Phase =
    | Checking
    | Reading(job: Job, tries: nat)
    | Writing(job: Job, tries: nat, seen: nat, next: Annotation)
    | Registering
    | Unregistering
    | Finished(status: Status)

  datatype Request = Start(app: string, kind: string, force: bool) | Close(of: nat)

  datatype Rollback = NotAttempted | Succeeded | Failed

  /** One call of StartSession or CloseSession. `reported` is StartSession's replaced-session variable. */
  datatype Client = Client(request: Request, id: string, phase: Phase, reported: string, rollback: Rollback)

  /** History: a point at which a client's updater took effect on the current value, or found nothing to do. */
  datatype Entry = Entry(client: nat, adds: bool, before: Annotation, after: Annotation, flags: Flags)

  datatype State = State(
    device: Device,
    registered: set<string>,
    clients: map<nat, Client>,
    used: set<string>,
    initial: Annotation,
    log: seq<Entry>)

  /** What UpdateDevice answers. An error may be returned with the write committed. */
  datatype PutOutcome = Committed | VersionConflict | Error(committed: bool)

  datatype Step =
    | BeginStart(c: nat, app: string, kind: string, force: bool, uuid: string)
    | BeginClose(c: nat, of: nat)
    | Check(c: nat, found: bool)
    | Get(c: nat, found: bool)
    | Put(c: nat, outcome: PutOutcome)
    | Register(c: nat, accepted: bool)
    | Unregister(c: nat, accepted: bool)
    | Environment(flags: Flags)

  predicate By(step: Step, c: nat) {
    !step.Environment? && step.c == c
  }

  function UpdaterOf(cl: Client, adds: bool): Updater {
    if adds && cl.request.Start? then
      if cl.request.force then Replace(cl.id, cl.request.app, cl.request.kind)
      else Add(cl.id, cl.request.app, cl.request.kind)
    else Remove(cl.id)
  }

  // ---- One client's moves --------------------------------------------------------------------

  predicate ValidRequest(app: string, kind: string) {
    app != "" && (kind == SERIAL || kind == VNC)
  }

  function AfterSuccess(cl: Client, job: Job): Client {
    match job
    case Adding => cl.(phase := Registering)
    case RollingBack(outcome) => cl.(phase := Finished(outcome), rollback := Succeeded)
    case Closing => cl.(phase := Unregistering)
  }

  function AfterFailure(cl: Client, job: Job, status: Status): Client {
    match job
    case Adding => cl.(phase := Reading(RollingBack(status), 0))
    case RollingBack(outcome) => cl.(phase := Finished(outcome), rollback := Failed)
    case Closing => cl.(phase := Finished(status))
  }

  /** StartSession's first look at the device, before a session exists. */
  function AfterCheck(cl: Client, d: Device, found: bool): Client
    requires cl.request.Start?
  {
    if !found then cl.(phase := Finished(Unreadable))
    else if !d.flags.Ready() then cl.(phase := Finished(Conflict))
    else if !cl.request.force && SlotTaken(Listed(d.value), cl.request.app, cl.request.kind)
    then cl.(phase := Finished(Conflict))
    else cl.(phase := Reading(Adding, 0))
  }

  /** True when the loop reaches its updater: the device was read and, for a start, is ready. */
  predicate Admits(job: Job, d: Device, found: bool) {
    found && (job.Adding? ==> d.flags.Ready())
  }

  /** One pass of the loop up to its write. */
  function AfterGet(cl: Client, d: Device, found: bool): Client
    requires cl.phase.Reading?
  {
    var job := cl.phase.job;
    if !found then AfterFailure(cl, job, Unreadable)
    else if !Admits(job, d, found) then AfterFailure(cl, job, Conflict)
    else
      var u := UpdaterOf(cl, job.Adding?);
      var told := cl.(reported := Reported(u, d.value, cl.reported));
      match Apply(u, d.value)
      case Duplicate => AfterFailure(told, job, Conflict)
      case Undecodable => AfterFailure(told, job, Internal)
      case Updated(next) =>
        if next == d.value then AfterSuccess(told, job)
        else told.(phase := Writing(job, cl.phase.tries, d.version, next))
  }

  /** The updater ran and left the value as it was. */
  predicate NothingToDo(cl: Client, d: Device, found: bool)
    requires cl.phase.Reading?
  {
    Admits(cl.phase.job, d, found) && Apply(UpdaterOf(cl, cl.phase.job.Adding?), d.value) == Updated(d.value)
  }

  function AfterPut(cl: Client, outcome: PutOutcome): Client
    requires cl.phase.Writing?
  {
    var job := cl.phase.job;
    match outcome
    case Committed => AfterSuccess(cl, job)
    case Error(_) => AfterFailure(cl, job, Internal)
    case VersionConflict =>
      if cl.phase.tries + 1 < MAX_TRIES then cl.(phase := Reading(job, cl.phase.tries + 1))
      else AfterFailure(cl, job, Internal)
  }

  predicate Commits(outcome: PutOutcome) {
    outcome == Committed || outcome == Error(true)
  }

  // ---- Steps of the whole system -------------------------------------------------------------

  predicate Enabled(s: State, step: Step) {
    match step
    case BeginStart(c, _, _, _, uuid) => c !in s.clients && uuid !in s.used && uuid != ""
    case BeginClose(c, of) =>
      && c !in s.clients && of in s.clients
      && s.clients[of].request.Start? && s.clients[of].phase == Finished(OK)
    case Check(c, _) => c in s.clients && s.clients[c].phase.Checking? && s.clients[c].request.Start?
    case Get(c, _) => c in s.clients && s.clients[c].phase.Reading?
    case Put(c, outcome) =>
      && c in s.clients && s.clients[c].phase.Writing?
      && (Commits(outcome) ==> s.clients[c].phase.seen == s.device.version)
    case Register(c, _) => c in s.clients && s.clients[c].phase.Registering?
    case Unregister(c, _) => c in s.clients && s.clients[c].phase.Unregistering?
    case Environment(_) => true
  }

  function Next(s: State, step: Step): State
    requires Enabled(s, step)
  {
    match step
    case BeginStart(c, app, kind, force, uuid) =>
      var phase := if ValidRequest(app, kind) then Checking else Finished(BadRequest);
      s.(clients := s.clients[c := Client(Start(app, kind, force), uuid, phase, "", NotAttempted)],
         used := s.used + {uuid})
    case BeginClose(c, of) =>
      s.(clients := s.clients[c := Client(Close(of), s.clients[of].id, Reading(Closing, 0), "", NotAttempted)])
    case Check(c, found) =>
      s.(clients := s.clients[c := AfterCheck(s.clients[c], s.device, found)])
    case Get(c, found) =>
      var cl := s.clients[c];
      var s' := s.(clients := s.clients[c := AfterGet(cl, s.device, found)]);
      if NothingToDo(cl, s.device, found)
      then s'.(log := s.log + [Entry(c, cl.phase.job.Adding?, s.device.value, s.device.value, s.device.flags)])
      else s'
    case Put(c, outcome) =>
      var cl := s.clients[c];
      var s' := s.(clients := s.clients[c := AfterPut(cl, outcome)]);
      if Commits(outcome)
      then s'.(device := Device(s.device.version + 1, s.device.flags, cl.phase.next),
               log := s.log + [Entry(c, cl.phase.job.Adding?, s.device.value, cl.phase.next, s.device.flags)])
      else s'
    case Register(c, accepted) =>
      var cl := s.clients[c];
      if accepted
      then s.(clients := s.clients[c := cl.(phase := Finished(OK))], registered := s.registered + {cl.id})
      else s.(clients := s.clients[c := cl.(phase := Reading(RollingBack(Internal), 0))])
    case Unregister(c, accepted) =>
      var cl := s.clients[c];
      if accepted
      then s.(clients := s.clients[c := cl.(phase := Finished(OK))], registered := s.registered - {cl.id})
      else s.(clients := s.clients[c := cl.(phase := Finished(Internal))])
    case Environment(flags) =>
      s.(device := Device(s.device.version + 1, flags, s.device.value))
  }

  // ---- Runs ----------------------------------------------------------------------------------

  function Ids(list: seq<Session>): set<string> {
    set s | s in list :: s.id
  }

  /** The run may begin with sessions left over in the annotation, but with no client at work. */
  predicate Init(s: State) {
    && Unique(Listed(s.device.value))
    && s.registered == {} && s.clients == map[] && s.log == []
    && s.used == Ids(Listed(s.device.value))
    && s.initial == s.device.value
  }

  predicate ValidRun(s: State, steps: seq<Step>)
    decreases |steps|
  {
    steps == [] || (Enabled(s, steps[0]) && ValidRun(Next(s, steps[0]), steps[1..]))
  }

  function Exec(s: State, steps: seq<Step>): State
    requires ValidRun(s, steps)
    decreases |steps|
  {
    if steps == [] then s else Exec(Next(s, steps[0]), steps[1..])
  }

  lemma {:induction false} RunAppend(s: State, a: seq<Step>, b: seq<Step>)
    requires ValidRun(s, a) && ValidRun(Exec(s, a), b)
    ensures ValidRun(s, a + b) && Exec(s, a + b) == Exec(Exec(s, a), b)
    decreases |a|
  {
    if a == [] {
      assert a + b == b;
    } else {
      RunAppend(Next(s, a[0]), a[1..], b);
      assert (a + b)[1..] == a[1..] + b;
    }
  }

  lemma {:induction false} RunPrefix(s: State, steps: seq<Step>, k: nat)
    requires ValidRun(s, steps) && k <= |steps|
    ensures ValidRun(s, steps[..k]) && ValidRun(Exec(s, steps[..k]), steps[k..])
    ensures Exec(Exec(s, steps[..k]), steps[k..]) == Exec(s, steps)
    decreases k
  {
    if k == 0 {
      assert steps[..0] == [] && steps[0..] == steps;
    } else {
      RunPrefix(Next(s, steps[0]), steps[1..], k - 1);
      assert steps[..k][1..] == steps[1..][..k - 1];
      assert steps[1..][k - 1..] == steps[k..];
    }
  }
}
