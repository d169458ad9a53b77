// One proxied connection: a reader and a sender thread per direction over two
// queues, with a failure handler that any of the four may run. Every step below
// is one thread doing one thing that the others can see; a run is any sequence
// of steps, so every interleaving is covered.
module DelayProtocol {
  import opened Options
  import opened DelayQueue

  /** Where a thread is inside `fail`. */
  datatype Stage = Record | AbortForward | AbortBackward | CloseSockets

  datatype Reader =
    | Ready
    | Pushing(arrival: int, data: Bytes)
    | Finishing
    | ReaderFailing(stage: Stage)
    | ReaderDone

  datatype Sender =
    | Popping
    | Sending(arrival: int, at: int, data: Bytes)
    | SenderFailing(stage: Stage)
    | SenderDone(drained: bool)

  datatype Sample = Sample(arrival: int, at: int)

  /** `read`, `sent` and `unpushed` are histories: what came from the source,
      what the destination was given, and what was read but not queued. */
  datatype Direction = Direction(
    queue: Queue, reader: Reader, sender: Sender,
    read: Bytes, sent: Bytes, unpushed: Bytes,
    statBytes: nat, samples: seq<Sample>)

  datatype Connection = Connection(
    now: int, delay: nat, stopping: bool, failed: bool,
    forward: Direction, backward: Direction)

  datatype Move =
    | Receive(data: Bytes) | ReceiveEnd | ReceiveError | Enqueue | Finish | ReaderRaises | ReaderFails
    | Pop | Send | SendError(given: nat) | SenderRaises(given: nat) | SenderFails

  datatype Action = Tick(elapsed: nat) | StopServer | Thread(onForward: bool, move: Move)

  // ---------------------------------------------------------------------
  // Steps
  // ---------------------------------------------------------------------

  predicate Enabled(d: Direction, m: Move) {
    match m
    case Receive(data) => d.reader.Ready? && data != []
    case ReceiveEnd => d.reader.Ready?
    case ReceiveError => d.reader.Ready?
    case Enqueue => d.reader.Pushing?
    case Finish => d.reader.Finishing?
    case ReaderRaises => d.reader.Ready? || d.reader.Pushing? || d.reader.Finishing?
    case ReaderFails => d.reader.ReaderFailing?
    case Pop => d.sender.Popping?
    case Send => d.sender.Sending?
    case SendError(given) => d.sender.Sending? && given <= |d.sender.data|
    case SenderRaises(given) =>
      (d.sender.Popping? && given == 0) || (d.sender.Sending? && given <= |d.sender.data|)
    case SenderFails => d.sender.SenderFailing?
  }

  /** What a thread does to its own direction. */
  function Moved(c: Connection, d: Direction, m: Move): Direction
    requires Enabled(d, m) && Sound(d.queue)
  {
    match m
    case Receive(data) =>
      d.(reader := Pushing(c.now, data), read := d.read + data, unpushed := data, statBytes := d.statBytes + |data|)
    case ReceiveEnd => d.(reader := Finishing)
    case ReceiveError => d.(reader := if c.stopping then Finishing else ReaderFailing(Record))
    case Enqueue =>
      var x := d.reader;
      if Accepts(d.queue, x.data) then
        d.(queue := Pushed(d.queue, x.arrival, x.arrival + c.delay, x.data), reader := Ready, unpushed := [])
      else d.(reader := ReaderFailing(Record))
    case Finish => d.(queue := d.queue.(eof := true), reader := ReaderDone)
    case ReaderRaises => d.(reader := ReaderFailing(Record))
    case ReaderFails =>
      d.(reader := match NextStage(d.reader.stage) case Some(s) => ReaderFailing(s) case None => ReaderDone)
    case Pop =>
      var poll := Look(d.queue, c.now);
      d.(queue := Left(d.queue, c.now),
         sender := match poll
           case Wait => Popping
           case Ended => SenderDone(!d.queue.aborted)
           case Popped(arrival, data) => Sending(arrival, c.now, data))
    case Send =>
      d.(sent := d.sent + d.sender.data, samples := d.samples + [Sample(d.sender.arrival, d.sender.at)],
         sender := Popping)
    case SendError(given) =>
      d.(sent := d.sent + d.sender.data[..given],
         sender := if c.stopping then SenderDone(false) else SenderFailing(Record))
    case SenderRaises(given) =>
      d.(sent := d.sent + (if d.sender.Sending? then d.sender.data[..given] else []), sender := SenderFailing(Record))
    case SenderFails =>
      d.(sender := match NextStage(d.sender.stage) case Some(s) => SenderFailing(s) case None => SenderDone(false))
  }

  function NextStage(s: Stage): Option<Stage> {
    match s
    case Record => Some(AbortForward)
    case AbortForward => Some(AbortBackward)
    case AbortBackward => Some(CloseSockets)
    case CloseSockets => None
  }

  function StageOf(d: Direction, m: Move): Option<Stage>
    requires Enabled(d, m)
  {
    if m.ReaderFails? then Some(d.reader.stage) else if m.SenderFails? then Some(d.sender.stage) else None
  }

  /** What a stage of `fail` does to the whole connection. */
  function StageDone(c: Connection, s: Option<Stage>): Connection {
    match s
    case Some(Record) => c.(failed := true)
    case Some(AbortForward) => c.(forward := c.forward.(queue := Aborted(c.forward.queue)))
    case Some(AbortBackward) => c.(backward := c.backward.(queue := Aborted(c.backward.queue)))
    case _ => c
  }

  predicate CanStep(c: Connection, a: Action) {
    && Sound(c.forward.queue) && Sound(c.backward.queue)
    && match a
       case Tick(_) => true
       case StopServer => true
       case Thread(onForward, m) => Enabled(if onForward then c.forward else c.backward, m)
  }

  function Step(c: Connection, a: Action): Connection
    requires CanStep(c, a)
  {
    match a
    case Tick(elapsed) => c.(now := c.now + elapsed)
    case StopServer => c.(stopping := true)
    case Thread(onForward, m) =>
      var d := if onForward then c.forward else c.backward;
      var moved := if onForward then c.(forward := Moved(c, d, m)) else c.(backward := Moved(c, d, m));
      StageDone(moved, StageOf(d, m))
  }

  function Run(c: Connection, actions: seq<Action>): Option<Connection>
    decreases |actions|
  {
    if actions == [] then Some(c)
    else if CanStep(c, actions[0]) then Run(Step(c, actions[0]), actions[1..])
    else None
  }

  /** The threads start with the first client chunk already read. */
  function Start(now: int, delay: nat, maxBytes: nat, first: Bytes): Connection {
    Connection(now, delay, false, false,
      Direction(Empty(maxBytes), Pushing(now, first), Popping, first, [], first, |first|, []),
      Direction(Empty(maxBytes), Ready, Popping, [], [], [], 0, []))
  }

  // ---------------------------------------------------------------------
  // The invariant
  // ---------------------------------------------------------------------

  function InFlight(d: Direction): Bytes {
    if d.sender.Sending? then d.sender.data else []
  }

  /** Read bytes are sent, in flight, queued or held by the reader, in that order. */
  predicate Conserved(d: Direction) {
    match d.sender
    case SenderDone(drained) => d.sent <= d.read && (drained ==> d.sent == d.read && d.queue.eof)
    case SenderFailing(_) => d.sent <= d.read
    case _ =>
      if d.queue.aborted then d.sent + InFlight(d) <= d.read
      else d.read == d.sent + InFlight(d) + Content(d.queue.items) + d.unpushed
  }

  predicate ReaderSettled(d: Direction) {
    && (d.reader.Pushing? ==> d.unpushed == d.reader.data)
    && (d.reader.Ready? || d.reader.Finishing? ==> d.unpushed == [])
    && (d.queue.eof ==> d.reader.ReaderDone? && d.unpushed == [])
  }

  /** A reader that is done has ended its queue, or failed. */
  predicate EndsQueue(c: Connection, d: Direction) {
    d.reader.ReaderDone? ==> d.queue.eof || c.failed
  }

  ghost predicate Timely(c: Connection, d: Direction) {
    && (forall x :: x in d.queue.items ==> x.release == x.arrival + c.delay)
    && (forall x :: x in d.samples ==> x.arrival + c.delay <= x.at)
    && (d.sender.Sending? ==> d.sender.arrival + c.delay <= d.sender.at)
  }

  ghost predicate DirectionOk(c: Connection, d: Direction) {
    && Sound(d.queue) && Conserved(d) && ReaderSettled(d) && Timely(c, d) && EndsQueue(c, d)
    && d.statBytes == |d.read|
    && (d.queue.aborted ==> c.failed)
    && (d.sender.SenderDone? ==> d.sender.drained || c.failed || c.stopping)
    && (d.reader.ReaderFailing? && !d.reader.stage.Record? ==> c.failed)
    && (d.sender.SenderFailing? && !d.sender.stage.Record? ==> c.failed)
  }

  ghost predicate Ok(c: Connection) {
    DirectionOk(c, c.forward) && DirectionOk(c, c.backward)
  }

  lemma StartOk(now: int, delay: nat, maxBytes: nat, first: Bytes)
    ensures Ok(Start(now, delay, maxBytes, first))
  {
  }

  /** The connection once a step has recorded its failure. */
  function Recorded(c: Connection, d: Direction, m: Move): Connection
    requires Enabled(d, m)
  {
    if StageOf(d, m) == Some(Record) then c.(failed := true) else c
  }

  /** A thread's own step keeps its direction in order, once its stage is carried out. */
  lemma MovedOk(c: Connection, d: Direction, m: Move)
    requires DirectionOk(c, d) && Enabled(d, m)
    ensures DirectionOk(Recorded(c, d, m), Moved(c, d, m))
  {
    hide DirectionOk, Moved;
    match m
    case Receive(_) => ReceiveOk(c, d, m);
    case ReceiveEnd => ReaderOk(c, d, m);
    case ReceiveError => ReaderOk(c, d, m);
    case Enqueue => EnqueueOk(c, d);
    case Finish => FinishOk(c, d);
    case ReaderRaises => ReaderOk(c, d, m);
    case ReaderFails => ReaderOk(c, d, m);
    case Pop => PopOk(c, d);
    case Send => SendOk(c, d);
    case SendError(given) => SendErrorOk(c, d, given);
    case SenderRaises(given) => SenderRaisesOk(c, d, given);
    case SenderFails => SenderFailsOk(c, d);
  }

  lemma ReceiveOk(c: Connection, d: Direction, m: Move)
    requires DirectionOk(c, d) && m.Receive? && Enabled(d, m)
    ensures DirectionOk(c, Moved(c, d, m))
  {
    hide Sound, Timely, Content;
    SameTimes(c, c, d, Moved(c, d, m));
    if d.sender.Popping? || d.sender.Sending? {
      var head := d.sent + InFlight(d) + Content(d.queue.items);
      assert head + [] == head;
    }
  }

  /** Steps that change nothing but where the reader stands. */
  lemma ReaderOk(c: Connection, d: Direction, m: Move)
    requires DirectionOk(c, d) && Enabled(d, m)
    requires m.ReceiveEnd? || m.ReceiveError? || m.ReaderRaises? || m.ReaderFails?
    ensures DirectionOk(Recorded(c, d, m), Moved(c, d, m))
  {
    hide Sound, Timely, Content, Conserved;
    SameTimes(c, Recorded(c, d, m), d, Moved(c, d, m));
    SameBytes(d, Moved(c, d, m));
  }

  lemma FinishOk(c: Connection, d: Direction)
    requires DirectionOk(c, d) && Enabled(d, Finish)
    ensures DirectionOk(c, Moved(c, d, Finish))
  {
    hide Timely, Content;
    SameTimes(c, c, d, Moved(c, d, Finish));
  }

  lemma SendOk(c: Connection, d: Direction)
    requires DirectionOk(c, d) && Enabled(d, Send)
    ensures DirectionOk(c, Moved(c, d, Send))
  {
    hide Sound, Content;
    assert d.sent + d.sender.data + [] == d.sent + d.sender.data;
  }

  lemma SendErrorOk(c: Connection, d: Direction, given: nat)
    requires DirectionOk(c, d) && Enabled(d, SendError(given))
    ensures DirectionOk(c, Moved(c, d, SendError(given)))
  {
    GivenSent(d, given);
    hide Sound, Timely, Content, Conserved;
    SameTimes(c, c, d, Moved(c, d, SendError(given)));
    EndedBytes(Moved(c, d, SendError(given)));
  }

  lemma SenderRaisesOk(c: Connection, d: Direction, given: nat)
    requires DirectionOk(c, d) && Enabled(d, SenderRaises(given))
    ensures DirectionOk(c, Moved(c, d, SenderRaises(given)))
  {
    GivenSent(d, given);
    hide Sound, Timely, Content, Conserved;
    SameTimes(c, c, d, Moved(c, d, SenderRaises(given)));
    EndedBytes(Moved(c, d, SenderRaises(given)));
  }

  lemma SenderFailsOk(c: Connection, d: Direction)
    requires DirectionOk(c, d) && Enabled(d, SenderFails)
    ensures DirectionOk(Recorded(c, d, SenderFails), Moved(c, d, SenderFails))
  {
    FailingBytes(d);
    hide Sound, Timely, Content, Conserved;
    SameTimes(c, Recorded(c, d, SenderFails), d, Moved(c, d, SenderFails));
    EndedBytes(Moved(c, d, SenderFails));
  }

  lemma SameTimes(c: Connection, c': Connection, d: Direction, d': Direction)
    requires Timely(c, d) && c'.delay == c.delay && d'.queue.items == d.queue.items && d'.samples == d.samples
    requires d'.sender == d.sender || !d'.sender.Sending?
    ensures Timely(c', d')
  {
  }

  lemma SameBytes(d: Direction, d': Direction)
    requires Conserved(d) && d' == d.(reader := d'.reader)
    ensures Conserved(d')
  {
  }

  lemma FailingBytes(d: Direction)
    requires Conserved(d) && d.sender.SenderFailing?
    ensures d.sent <= d.read
  {
  }

  lemma EndedBytes(d: Direction)
    requires d.sent <= d.read && (d.sender.SenderFailing? || d.sender == SenderDone(false))
    ensures Conserved(d)
  {
  }

  /** What a sender in the middle has handed over is a prefix of what was read. */
  lemma GivenSent(d: Direction, given: nat)
    requires Conserved(d) && (d.sender.Popping? || d.sender.Sending?)
    requires d.sender.Sending? ==> given <= |d.sender.data|
    ensures d.sent + (if d.sender.Sending? then d.sender.data[..given] else []) <= d.read
  {
    hide Content;
    var data := InFlight(d);
    var rest := Content(d.queue.items) + d.unpushed;
    if !d.queue.aborted {
      assert d.sent + data + Content(d.queue.items) + d.unpushed == (d.sent + data) + rest;
      assert d.read[..|d.sent + data|] == d.sent + data;
    }
    PartSent(d.sent, data, if d.sender.Sending? then given else 0, d.read);
  }

  lemma EnqueueOk(c: Connection, d: Direction)
    requires DirectionOk(c, d) && Enabled(d, Enqueue)
    ensures DirectionOk(c, Moved(c, d, Enqueue))
  {
    var x := d.reader;
    PushSound(d.queue, x.arrival, x.arrival + c.delay, x.data);
    if Accepts(d.queue, x.data) {
      PushedConserved(d, x.arrival, x.arrival + c.delay);
      hide Sound, Content, Conserved;
      assert Timely(c, Moved(c, d, Enqueue));
    } else {
      hide Sound, Timely, Content, Conserved;
      SameTimes(c, c, d, Moved(c, d, Enqueue));
      SameBytes(d, Moved(c, d, Enqueue));
    }
  }

  lemma PushedConserved(d: Direction, arrival: int, release: int)
    requires Conserved(d) && ReaderSettled(d) && Sound(d.queue) && d.reader.Pushing? && Accepts(d.queue, d.reader.data)
    ensures var q := Pushed(d.queue, arrival, release, d.reader.data);
      Conserved(d.(queue := q, reader := Ready, unpushed := []))
  {
    PushSound(d.queue, arrival, release, d.reader.data);
    hide Sound, Size;
    if d.sender.Popping? || d.sender.Sending? {
      assert d.sent + InFlight(d) + Content(d.queue.items) + d.reader.data
          == d.sent + InFlight(d) + (Content(d.queue.items) + d.reader.data) + [];
    }
  }

  lemma PopOk(c: Connection, d: Direction)
    requires DirectionOk(c, d) && Enabled(d, Pop)
    ensures DirectionOk(c, Moved(c, d, Pop))
  {
    var q := d.queue;
    match Look(q, c.now)
    case Popped(_, data) =>
      assert q.items[0] in q.items;
      assert d.sent + [] + (data + Content(q.items[1..])) + d.unpushed
          == d.sent + data + Content(q.items[1..]) + d.unpushed;
    case Ended =>
      if !q.aborted {
        assert d.sent + [] + [] + [] == d.sent;
      }
    case Wait =>
  }

  lemma PartSent(sent: Bytes, data: Bytes, given: nat, read: Bytes)
    requires given <= |data| && sent + data <= read
    ensures sent + data[..given] <= read
  {
    assert (sent + data)[..|sent| + given] == sent + data[..given];
  }

  lemma AbortOk(c: Connection, d: Direction)
    requires DirectionOk(c, d) && c.failed
    ensures DirectionOk(c, d.(queue := Aborted(d.queue)))
  {
  }

  lemma FailedOk(c: Connection, d: Direction)
    requires DirectionOk(c, d)
    ensures DirectionOk(c.(failed := true), d)
  {
  }

  /** Every step of every thread keeps both directions in order. */
  lemma StepOk(c: Connection, a: Action)
    requires Ok(c) && CanStep(c, a)
    ensures Ok(Step(c, a))
  {
    hide Moved, DirectionOk, Enabled;
    match a
    case Tick(_) =>
      ClockOk(c, Step(c, a));
    case StopServer =>
      ClockOk(c, Step(c, a));
    case Thread(onForward, m) =>
      var d := if onForward then c.forward else c.backward;
      var other := if onForward then c.backward else c.forward;
      MovedOk(c, d, m);
      var d' := Moved(c, d, m);
      var stage := StageOf(d, m);
      var c' := if onForward then c.(forward := d') else c.(backward := d');
      if stage == Some(Record) {
        FailedOk(c, other);
        SameDirections(c.(failed := true), c'.(failed := true));
      } else {
        SameDirections(c, c');
        if stage == Some(AbortForward) || stage == Some(AbortBackward) {
          StageFailed(c, d, m);
          AbortOk(c', c'.forward);
          AbortOk(c', c'.backward);
          SameDirections(c', Step(c, a));
        }
      }
  }

  /** Only the delay and the flags of the connection matter to a direction. */
  lemma SameDirections(c: Connection, c': Connection)
    requires c.delay == c'.delay && c.failed == c'.failed && c.stopping == c'.stopping
    ensures forall d :: DirectionOk(c, d) <==> DirectionOk(c', d)
  {
  }

  lemma ClockOk(c: Connection, c': Connection)
    requires c.delay == c'.delay && c.failed == c'.failed && (c.stopping ==> c'.stopping)
    ensures forall d :: DirectionOk(c, d) ==> DirectionOk(c', d)
  {
  }

  lemma StageFailed(c: Connection, d: Direction, m: Move)
    requires DirectionOk(c, d) && Enabled(d, m)
    requires StageOf(d, m) == Some(AbortForward) || StageOf(d, m) == Some(AbortBackward)
    ensures c.failed
  {
  }

  lemma {:induction false} RunOk(c: Connection, actions: seq<Action>)
    requires Ok(c) && Run(c, actions).Some?
    ensures Ok(Run(c, actions).value)
    decreases |actions|
  {
    hide Ok;
    if actions != [] {
      StepOk(c, actions[0]);
      RunOk(Step(c, actions[0]), actions[1..]);
    }
  }

  // ---------------------------------------------------------------------
  // What every run guarantees
  // ---------------------------------------------------------------------

  ghost predicate Reached(c: Connection, now: int, delay: nat, maxBytes: nat, first: Bytes, actions: seq<Action>) {
    Run(Start(now, delay, maxBytes, first), actions) == Some(c)
  }

  /** The destination only ever sees a prefix of the source, in order and once,
      and all of it when the sender ended by draining its queue. */
  lemma DeliveredInOrder(c: Connection, d: Direction, now: int, delay: nat, maxBytes: nat, first: Bytes,
                         actions: seq<Action>)
    requires Reached(c, now, delay, maxBytes, first, actions) && (d == c.forward || d == c.backward)
    ensures d.sent <= d.read
    ensures d.sender == SenderDone(true) ==> d.sent == d.read && d.queue.eof
    ensures d.statBytes == |d.read|
  {
    StartOk(now, delay, maxBytes, first);
    RunOk(Start(now, delay, maxBytes, first), actions);
    if d.sender.Popping? || d.sender.Sending? {
      assert d.sent <= d.sent + InFlight(d);
    }
  }

  lemma {:induction false} RunKeepsLimits(c: Connection, actions: seq<Action>)
    requires Run(c, actions).Some?
    ensures var c' := Run(c, actions).value;
      && c'.delay == c.delay
      && c'.forward.queue.maxBytes == c.forward.queue.maxBytes
      && c'.backward.queue.maxBytes == c.backward.queue.maxBytes
      && c'.forward.queue.highWater >= c.forward.queue.highWater
      && c'.backward.queue.highWater >= c.backward.queue.highWater
    decreases |actions|
  {
    if actions != [] {
      StepKeepsLimits(c, actions[0]);
      RunKeepsLimits(Step(c, actions[0]), actions[1..]);
    }
  }

  lemma MovedKeepsLimits(c: Connection, d: Direction, m: Move)
    requires Enabled(d, m) && Sound(d.queue)
    ensures Moved(c, d, m).queue.maxBytes == d.queue.maxBytes && Moved(c, d, m).queue.highWater >= d.queue.highWater
  {
    hide Sound;
  }

  lemma StepKeepsLimits(c: Connection, a: Action)
    requires CanStep(c, a)
    ensures var c' := Step(c, a);
      && c'.delay == c.delay
      && c'.forward.queue.maxBytes == c.forward.queue.maxBytes
      && c'.backward.queue.maxBytes == c.backward.queue.maxBytes
      && c'.forward.queue.highWater >= c.forward.queue.highWater
      && c'.backward.queue.highWater >= c.backward.queue.highWater
  {
    hide Moved, Enabled, Sound;
    if a.Thread? { MovedKeepsLimits(c, if a.onForward then c.forward else c.backward, a.move); }
  }

  /** Queued bytes never pass the recorded high water, nor that the bound; and
      no chunk leaves before its delay is over. */
  lemma BoundedAndDelayed(c: Connection, d: Direction, now: int, delay: nat, maxBytes: nat, first: Bytes,
                          actions: seq<Action>)
    requires Reached(c, now, delay, maxBytes, first, actions) && (d == c.forward || d == c.backward)
    ensures Size(d.queue.items) == d.queue.bytes <= d.queue.highWater <= maxBytes
    ensures forall x :: x in d.samples ==> x.at - x.arrival >= delay
  {
    StartOk(now, delay, maxBytes, first);
    RunOk(Start(now, delay, maxBytes, first), actions);
    RunKeepsLimits(Start(now, delay, maxBytes, first), actions);
  }

  /** A connection record without an error is the truth: when all four threads are
      done, nothing was reported and the server is not stopping, both sides got
      every byte the other side sent. */
  lemma NoErrorMeansDelivered(c: Connection, now: int, delay: nat, maxBytes: nat, first: Bytes, actions: seq<Action>)
    requires Reached(c, now, delay, maxBytes, first, actions)
    requires c.forward.sender.SenderDone? && c.backward.sender.SenderDone?
    requires !c.failed && !c.stopping
    ensures c.forward.sent == c.forward.read && c.backward.sent == c.backward.read
    ensures c.forward.reader.ReaderDone? && c.backward.reader.ReaderDone?
  {
    StartOk(now, delay, maxBytes, first);
    RunOk(Start(now, delay, maxBytes, first), actions);
  }
}
