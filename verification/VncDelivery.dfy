/** Delivery of VNC data from the tunnel reader to a single viewer through a bounded channel and an attach flag,
    as a state machine over the steps of the two goroutines. */
module VncDelivery {
  import opened Common

  const CAPACITY: nat := 64

  type Message = seq<int>

  /** The reader: waiting for a message; about to load the flag; in the blocking select; in the last, non-blocking
      select; or finished. */
  datatype Reader = Idle | Checking | Blocked | Offering | Stopped

  /** The viewer: none yet; bridged and consuming; bridge over but flag not yet cleared; gone. */
  datatype Viewer = Waiting | Attached | Leaving | Gone

  /** What became of a received message. */
  datatype Fate = InFlight | Delivered | Dropped | Abandoned

  datatype State = State(
    received: seq<Message>, fates: seq<Fate>, buffer: seq<Message>, consumed: seq<Message>,
    reader: Reader, viewer: Viewer, cancelled: bool)

  datatype Step =
    | Receive(msg: Message) | ReadFails
    | Load | Poll | Send | Drop | Abort
    | Attach | Consume | BridgeEnds | Detach
    | Cancel

  predicate Flag(s: State) {
    s.viewer == Attached || s.viewer == Leaving
  }

  predicate Selecting(s: State) {
    s.reader == Blocked || s.reader == Offering
  }

  predicate Enabled(s: State, step: Step) {
    match step
    case Receive(_) => s.reader == Idle
    case ReadFails => s.reader == Idle
    case Load => s.reader == Checking
    case Poll => s.reader == Blocked
    case Send => Selecting(s) && |s.buffer| < CAPACITY && s.received != []
    case Drop => s.reader == Offering && |s.buffer| >= CAPACITY && !s.cancelled
    case Abort => Selecting(s) && s.cancelled
    case Attach => s.viewer == Waiting
    case Consume => s.viewer == Attached && s.buffer != []
    case BridgeEnds => s.viewer == Attached
    case Detach => s.viewer == Leaving
    case Cancel => true
  }

  /** The message being delivered meets its fate. */
  function Settle(fates: seq<Fate>, fate: Fate): seq<Fate> {
    if fates == [] then [] else fates[..|fates| - 1] + [fate]
  }

  function Next(s: State, step: Step): State
    requires Enabled(s, step)
  {
    match step
    case Receive(msg) => s.(received := s.received + [msg], fates := s.fates + [InFlight], reader := Checking)
    case ReadFails => s.(reader := Stopped)
    case Load => s.(reader := if Flag(s) then Blocked else Offering)
    case Poll => s.(reader := Checking)
    case Send =>
      s.(buffer := s.buffer + [s.received[|s.received| - 1]], fates := Settle(s.fates, Delivered), reader := Idle)
    case Drop => s.(fates := Settle(s.fates, Dropped), reader := Idle)
    case Abort => s.(fates := Settle(s.fates, Abandoned), reader := Stopped)
    case Attach => s.(viewer := Attached)
    case Consume => s.(consumed := s.consumed + [s.buffer[0]], buffer := s.buffer[1..])
    case BridgeEnds => s.(viewer := Leaving)
    case Detach => s.(viewer := Gone)
    case Cancel => s.(cancelled := true)
  }

  predicate Init(s: State) {
    s == State([], [], [], [], Idle, Waiting, false)
  }

  /** Runs, by their last step. */
  predicate ValidRun(s: State, steps: seq<Step>)
    decreases |steps|, 0
  {
    steps == [] ||
    (ValidRun(s, steps[..|steps| - 1]) && Enabled(Exec(s, steps[..|steps| - 1]), steps[|steps| - 1]))
  }

  function Exec(s: State, steps: seq<Step>): State
    requires ValidRun(s, steps)
    decreases |steps|, 1
  {
    if steps == [] then s else Next(Exec(s, steps[..|steps| - 1]), steps[|steps| - 1])
  }

  // ---- Order and loss ------------------------------------------------------------------------

  /** The messages whose fate is to be delivered, in the order received. */
  function Picked(received: seq<Message>, fates: seq<Fate>): seq<Message>
    requires |received| == |fates|
  {
    if received == [] then []
    else
      var n := |received| - 1;
      if fates[n] == Delivered then Picked(received[..n], fates[..n]) + [received[n]]
      else Picked(received[..n], fates[..n])
  }

  predicate InFlightOk(s: State) {
    var busy := s.reader == Checking || Selecting(s);
    && (busy ==> s.fates != [] && s.fates[|s.fates| - 1] == InFlight)
    && forall i :: 0 <= i < |s.fates| && s.fates[i] == InFlight ==> busy && i == |s.fates| - 1
  }

  predicate Inv(s: State) {
    && |s.fates| == |s.received| && InFlightOk(s)
    && |s.buffer| <= CAPACITY
    && s.consumed + s.buffer == Picked(s.received, s.fates)
  }

  lemma PickedSnoc(received: seq<Message>, fates: seq<Fate>, msg: Message, fate: Fate)
    requires |received| == |fates|
    ensures Picked(received + [msg], fates + [fate]) ==
      if fate == Delivered then Picked(received, fates) + [msg] else Picked(received, fates)
  {
    assert (received + [msg])[..|received|] == received && (fates + [fate])[..|fates|] == fates;
  }

  /** Settling the last message adds it to the picked ones exactly when it is delivered. */
  lemma PickedSettle(received: seq<Message>, fates: seq<Fate>, fate: Fate)
    requires |received| == |fates| && fates != [] && fates[|fates| - 1] == InFlight
    ensures |Settle(fates, fate)| == |received|
    ensures Picked(received, Settle(fates, fate)) ==
      if fate == Delivered then Picked(received, fates) + [received[|received| - 1]] else Picked(received, fates)
  {
    var n := |received| - 1;
    PickedSnoc(received[..n], fates[..n], received[n], fate);
    assert received == received[..n] + [received[n]];
  }

  lemma InvStep(s: State, step: Step)
    requires Inv(s) && Enabled(s, step)
    ensures Inv(Next(s, step))
  {
    match step
    case Receive(msg) =>
      PickedSnoc(s.received, s.fates, msg, InFlight);
    case Send =>
      PickedSettle(s.received, s.fates, Delivered);
      AppendAssociates(s.consumed, s.buffer, [s.received[|s.received| - 1]]);
    case Drop => PickedSettle(s.received, s.fates, Dropped);
    case Abort => PickedSettle(s.received, s.fates, Abandoned);
    case Consume =>
      assert s.buffer == [s.buffer[0]] + s.buffer[1..];
      AppendAssociates(s.consumed, [s.buffer[0]], s.buffer[1..]);
    case _ =>
  }

  lemma {:induction false} InvRun(s: State, steps: seq<Step>)
    requires Inv(s) && ValidRun(s, steps)
    ensures Inv(Exec(s, steps))
    decreases |steps|
  {
    if steps != [] {
      var n := |steps| - 1;
      InvRun(s, steps[..n]);
      InvStep(Exec(s, steps[..n]), steps[n]);
    }
  }

  lemma {:induction false} PickedInOrder(received: seq<Message>, fates: seq<Fate>)
    requires |received| == |fates|
    ensures Subsequence(Picked(received, fates), received)
    ensures (forall i :: 0 <= i < |fates| ==> fates[i] == Delivered) ==> Picked(received, fates) == received
  {
    if received != [] {
      var n := |received| - 1;
      PickedInOrder(received[..n], fates[..n]);
      assert received == received[..n] + [received[n]];
      if fates[n] == Delivered {
        SubsequenceBefore(Picked(received[..n], fates[..n]), received[..n], [received[n]]);
      } else {
        SubsequenceAppend(Picked(received[..n], fates[..n]), received[..n], [], [received[n]]);
        assert Picked(received[..n], fates[..n]) + [] == Picked(received[..n], fates[..n]);
      }
    }
  }

  /** Over every interleaving: what the viewer consumed followed by what is buffered is an in-order part of what was
      received, namely the messages that were neither dropped, abandoned nor still in flight; and the buffer stays
      within its capacity. */
  lemma DeliveryIsInOrder(s0: State, steps: seq<Step>)
    requires Init(s0) && ValidRun(s0, steps)
    ensures var s := Exec(s0, steps);
      && |s.fates| == |s.received|
      && s.consumed + s.buffer == Picked(s.received, s.fates)
      && Subsequence(s.consumed + s.buffer, s.received)
      && |s.buffer| <= 64
      && ((forall i :: 0 <= i < |s.fates| ==> s.fates[i] == Delivered) ==> s.consumed + s.buffer == s.received)
  {
    InvRun(s0, steps);
    PickedInOrder(Exec(s0, steps).received, Exec(s0, steps).fates);
  }

  // ---- When a message may be dropped ---------------------------------------------------------

  lemma {:induction false} RunPrefix(s: State, steps: seq<Step>, k: nat)
    requires ValidRun(s, steps) && k <= |steps|
    ensures ValidRun(s, steps[..k])
    decreases |steps|
  {
    if k < |steps| {
      RunPrefix(s, steps[..|steps| - 1], k);
      assert steps[..|steps| - 1][..k] == steps[..k];
    } else {
      assert steps[..k] == steps;
    }
  }

  /** The state before the k-th step of a run. */
  function At(s: State, steps: seq<Step>, k: nat): State
    requires ValidRun(s, steps) && k <= |steps|
  {
    RunPrefix(s, steps, k);
    Exec(s, steps[..k])
  }

  lemma AtPrefix(s: State, steps: seq<Step>, n: nat, k: nat)
    requires ValidRun(s, steps) && k <= n <= |steps|
    ensures ValidRun(s, steps[..n]) && At(s, steps[..n], k) == At(s, steps, k)
  {
    RunPrefix(s, steps, n);
    assert steps[..n][..k] == steps[..k];
  }

  /** The last select is entered only from a load that finds the flag down, and no message arrives inside it. */
  lemma OfferingStep(s: State, step: Step)
    requires Enabled(s, step) && Next(s, step).reader == Offering
    ensures Next(s, step).received == s.received
    ensures s.reader != Offering ==> step == Load && !Flag(s)
  {
  }

  /** A new drop is the message in hand, in the last select, with the buffer full. */
  lemma DropStep(s: State, step: Step, i: nat)
    requires Inv(s) && Enabled(s, step)
    requires i < |Next(s, step).fates| && Next(s, step).fates[i] == Dropped
    ensures (i < |s.fates| && s.fates[i] == Dropped)
      || (step == Drop && s.reader == Offering && |s.received| == i + 1 && |s.buffer| == CAPACITY)
  {
  }

  /** At step j, during the delivery of message number `count`, the reader loaded the flag and found it down. */
  predicate SawFlagDown(s: State, steps: seq<Step>, j: nat, count: nat)
    requires ValidRun(s, steps) && j < |steps|
  {
    steps[j] == Load && !Flag(At(s, steps, j)) && |At(s, steps, j).received| == count
  }

  lemma {:induction false} OfferingSawFlagDown(s0: State, steps: seq<Step>)
    requires Init(s0) && ValidRun(s0, steps) && Exec(s0, steps).reader == Offering
    ensures exists j: nat :: j < |steps| && SawFlagDown(s0, steps, j, |Exec(s0, steps).received|)
    decreases |steps|
  {
    var n := |steps| - 1;
    var s := Exec(s0, steps[..n]);
    var count := |s.received|;
    OfferingStep(s, steps[n]);
    if s.reader == Offering {
      OfferingSawFlagDown(s0, steps[..n]);
      var j: nat :| j < n && SawFlagDown(s0, steps[..n], j, count);
      AtPrefix(s0, steps, n, j);
      assert SawFlagDown(s0, steps, j, count);
    } else {
      assert SawFlagDown(s0, steps, n, count);
    }
  }

  /** At step k message number `count` was dropped, with the buffer full. */
  predicate DroppedAt(s: State, steps: seq<Step>, k: nat, count: nat)
    requires ValidRun(s, steps) && k < |steps|
  {
    && steps[k] == Drop && |At(s, steps, k).received| == count
    && |At(s, steps, k).buffer| == CAPACITY
  }

  predicate DropIsExcused(s: State, steps: seq<Step>, j: nat, k: nat, i: nat)
    requires ValidRun(s, steps)
  {
    j < k < |steps| && SawFlagDown(s, steps, j, i + 1) && DroppedAt(s, steps, k, i + 1)
  }

  /** A message is dropped only if during its own delivery the flag was seen down and the buffer was full. */
  lemma {:induction false} DroppedOnlyWhenDetachedAndFull(s0: State, steps: seq<Step>, i: nat)
    requires Init(s0) && ValidRun(s0, steps)
    requires i < |Exec(s0, steps).fates| && Exec(s0, steps).fates[i] == Dropped
    ensures exists j: nat, k: nat :: DropIsExcused(s0, steps, j, k, i)
    decreases |steps|
  {
    var n := |steps| - 1;
    var s := Exec(s0, steps[..n]);
    InvRun(s0, steps[..n]);
    DropStep(s, steps[n], i);
    if i < |s.fates| && s.fates[i] == Dropped {
      DroppedOnlyWhenDetachedAndFull(s0, steps[..n], i);
      var j: nat, k: nat :| DropIsExcused(s0, steps[..n], j, k, i);
      AtPrefix(s0, steps, n, j);
      AtPrefix(s0, steps, n, k);
      assert DropIsExcused(s0, steps, j, k, i);
    } else {
      OfferingSawFlagDown(s0, steps[..n]);
      var j: nat :| j < n && SawFlagDown(s0, steps[..n], j, |s.received|);
      AtPrefix(s0, steps, n, j);
      assert DropIsExcused(s0, steps, j, n, i);
    }
  }

  /** The flag is up in every state of the run. */
  predicate AttachedThroughout(s: State, steps: seq<Step>)
    requires ValidRun(s, steps)
    decreases |steps|
  {
    Flag(Exec(s, steps)) && (steps == [] || AttachedThroughout(s, steps[..|steps| - 1]))
  }

  /** The reader has loaded the flag for the last time, the buffer is full, and nothing tells it to stop. */
  predicate AboutToDrop(s: State) {
    s.reader == Offering && |s.buffer| >= CAPACITY && !s.cancelled
  }

  /** With the flag up, no step leads to such a state but from one with the same message in hand. */
  lemma AboutToDropStep(s: State, step: Step)
    requires Enabled(s, step) && Flag(s) && AboutToDrop(Next(s, step))
    ensures AboutToDrop(s) && Next(s, step).received == s.received
  {
  }

  /** Message `i` was dropped in the run and not before it. */
  predicate NewlyDropped(s: State, steps: seq<Step>, i: nat)
    requires ValidRun(s, steps)
  {
    var fates := Exec(s, steps).fates;
    i < |fates| && fates[i] == Dropped && !(i < |s.fates| && s.fates[i] == Dropped)
  }

  lemma {:induction false} StillAboutToDrop(s: State, steps: seq<Step>)
    requires ValidRun(s, steps) && AttachedThroughout(s, steps) && AboutToDrop(Exec(s, steps))
    ensures AboutToDrop(s) && Exec(s, steps).received == s.received
    decreases |steps|
  {
    if steps != [] {
      var n := |steps| - 1;
      AboutToDropStep(Exec(s, steps[..n]), steps[n]);
      StillAboutToDrop(s, steps[..n]);
    }
  }

  /** While a viewer stays attached, at most one message is dropped: the one in hand when the run begins, if the
      reader was about to drop it. */
  lemma {:induction false} OnlyMessageInHandIsDropped(s: State, steps: seq<Step>, i: nat)
    requires Inv(s) && ValidRun(s, steps) && AttachedThroughout(s, steps) && NewlyDropped(s, steps, i)
    ensures AboutToDrop(s) && i + 1 == |s.received|
    decreases |steps|
  {
    var n := |steps| - 1;
    var last := Exec(s, steps[..n]);
    InvRun(s, steps[..n]);
    DropStep(last, steps[n], i);
    if i < |last.fates| && last.fates[i] == Dropped {
      OnlyMessageInHandIsDropped(s, steps[..n], i);
    } else {
      StillAboutToDrop(s, steps[..n]);
    }
  }

  /** With the viewer staying attached a message can still be dropped exactly when the reader is past its last load of
      the flag with the buffer full. */
  lemma DropWhileAttachedIff(s: State)
    requires Inv(s) && Flag(s)
    ensures (exists steps: seq<Step>, i: nat :: ValidRun(s, steps) && AttachedThroughout(s, steps) && NewlyDropped(s, steps, i))
      <==> AboutToDrop(s)
  {
    if AboutToDrop(s) {
      OneStep(s, Drop);
      assert [Drop][..0] == [];
      assert AttachedThroughout(s, [Drop]) && NewlyDropped(s, [Drop], |s.fates| - 1);
    }
    forall steps: seq<Step>, i: nat | ValidRun(s, steps) && AttachedThroughout(s, steps) && NewlyDropped(s, steps, i)
      ensures AboutToDrop(s)
    {
      OnlyMessageInHandIsDropped(s, steps, i);
    }
  }

  /** Idle with `n` messages buffered, no viewer yet. */
  predicate Filled(s: State, n: nat) {
    s.reader == Idle && s.viewer == Waiting && !s.cancelled && |s.buffer| == n
  }

  lemma {:induction false} FillBuffer(s0: State, n: nat) returns (steps: seq<Step>)
    requires Init(s0) && n <= CAPACITY
    ensures ValidRun(s0, steps) && Filled(Exec(s0, steps), n)
  {
    if n == 0 {
      steps := [];
    } else {
      var some := FillBuffer(s0, n - 1);
      MoreSteps(s0, some, Receive([]));
      MoreSteps(s0, some + [Receive([])], Load);
      MoreSteps(s0, some + [Receive([])] + [Load], Send);
      steps := some + [Receive([])] + [Load] + [Send];
    }
  }

  /** It does happen: a message that finds no viewer and a full buffer is dropped although a viewer attaches between
      the load of the flag and the last select. */
  lemma DropsWithViewerAttached(s0: State) returns (steps: seq<Step>)
    requires Init(s0)
    ensures ValidRun(s0, steps) && Exec(s0, steps).viewer == Attached && AboutToDrop(Exec(s0, steps))
    ensures var s := Exec(s0, steps);
      Enabled(s, Drop) && Next(s, Drop).viewer == Attached && Next(s, Drop).fates == Settle(s.fates, Dropped)
  {
    var full := FillBuffer(s0, CAPACITY);
    MoreSteps(s0, full, Receive([]));
    MoreSteps(s0, full + [Receive([])], Load);
    MoreSteps(s0, full + [Receive([])] + [Load], Attach);
    steps := full + [Receive([])] + [Load] + [Attach];
  }

  // ---- No stall ------------------------------------------------------------------------------

  /** Once the viewer is gone a reader in the middle of a delivery can always finish by itself, in at most three
      steps, whatever the state of the buffer. */
  lemma DetachedReaderIsNeverStuck(s: State)
    requires Inv(s) && !Flag(s) && (s.reader == Checking || Selecting(s))
    ensures exists steps: seq<Step> ::
              && |steps| <= 3 && ValidRun(s, steps)
              && (Exec(s, steps).reader == Idle || Exec(s, steps).reader == Stopped)
  {
    var last := if |s.buffer| < CAPACITY then Send else if s.cancelled then Abort else Drop;
    if s.reader == Offering {
      OneStep(s, last);
    } else if s.reader == Checking {
      OneStep(s, Load);
      MoreSteps(s, [Load], last);
    } else {
      OneStep(s, Poll);
      MoreSteps(s, [Poll], Load);
      MoreSteps(s, [Poll, Load], last);
    }
  }

  /** The flag is up from the moment a viewer attaches until its bridge has ended and the flag was cleared: a load in
      between goes on to block, one before or after does not. */
  lemma LoadSeesViewer(s: State)
    requires s.reader == Checking
    ensures Next(s, Load).reader == Blocked <==> s.viewer == Attached || s.viewer == Leaving
    ensures Next(s, Load).reader == Offering <==> s.viewer == Waiting || s.viewer == Gone
  {
  }

  /** With room in the buffer a delivery in progress can end with the message in the buffer, viewer or no viewer. */
  lemma DeliveryCanEnd(s: State) returns (steps: seq<Step>)
    requires Inv(s) && (s.reader == Checking || Selecting(s)) && |s.buffer| < 64
    ensures |steps| <= 2 && ValidRun(s, steps)
    ensures var s' := Exec(s, steps);
      && s'.reader == Idle && s'.viewer == s.viewer && s'.received == s.received && s.received != []
      && s'.buffer == s.buffer + [s.received[|s.received| - 1]]
      && s'.fates == s.fates[..|s.fates| - 1] + [Delivered]
  {
    if s.reader == Checking {
      OneStep(s, Load);
      MoreSteps(s, [Load], Send);
      steps := [Load] + [Send];
    } else {
      OneStep(s, Send);
      steps := [Send];
    }
  }

  /** A full buffer with a viewer attached holds the reader up only until the viewer takes a message. */
  lemma BackpressureEnds(s: State) returns (steps: seq<Step>)
    requires Inv(s) && (s.reader == Checking || s.reader == Blocked) && s.viewer == Attached && |s.buffer| == CAPACITY
    ensures |steps| <= 3 && ValidRun(s, steps) && AttachedThroughout(s, steps)
    ensures var s' := Exec(s, steps);
      && s'.reader == Idle && s'.consumed == s.consumed + [s.buffer[0]]
      && s'.fates == s.fates[..|s.fates| - 1] + [Delivered]
  {
    OneStep(s, Consume);
    assert [Consume][..0] == [];
    steps := [Consume];
    if s.reader == Checking {
      MoreSteps(s, steps, Load);
      assert (steps + [Load])[..1] == steps;
      steps := steps + [Load];
    }
    MoreSteps(s, steps, Send);
    assert (steps + [Send])[..|steps|] == steps;
    steps := steps + [Send];
  }

  lemma OneStep(s: State, step: Step)
    requires Enabled(s, step)
    ensures ValidRun(s, [step]) && Exec(s, [step]) == Next(s, step)
  {
    assert [step][..0] == [];
    assert ValidRun(s, []);
  }

  lemma MoreSteps(s: State, steps: seq<Step>, step: Step)
    requires ValidRun(s, steps) && Enabled(Exec(s, steps), step)
    ensures ValidRun(s, steps + [step]) && Exec(s, steps + [step]) == Next(Exec(s, steps), step)
  {
    assert (steps + [step])[..|steps|] == steps;
  }
}
