// What a connection comes to: a direction whose reader has ended drains to its
// last byte, as early as the delays allow; an error is recorded and closes both
// directions, and nothing else does.
module DelayProgress {
  import opened Options
  import opened DelayQueue
  import opened DelayProtocol

  function Side(c: Connection, forward: bool): Direction {
    if forward then c.forward else c.backward
  }

  // ---------------------------------------------------------------------
  // Draining
  // ---------------------------------------------------------------------

  function Later(a: int, b: int): int {
    if a < b then b else a
  }

  /** When the last of the chunks is due, or now. */
  function LastDue(now: int, items: seq<Chunk>): int
    decreases |items|
  {
    if items == [] then now else LastDue(Later(now, items[0].release), items[1..])
  }

  /** Only the clock and the one sender move. */
  predicate OnlySends(actions: seq<Action>, forward: bool) {
    forall a :: a in actions ==> a.Tick? || a == Thread(forward, Pop) || a == Thread(forward, Send)
  }

  ghost predicate Draining(c: Connection, forward: bool) {
    var d := Side(c, forward);
    Ok(c) && d.queue.eof && !d.queue.aborted && (d.sender.Popping? || d.sender.Sending?)
  }

  ghost predicate Drained(c: Connection, forward: bool, actions: seq<Action>, last: Connection) {
    var d, d' := Side(c, forward), Side(last, forward);
    && Run(c, actions) == Some(last) && OnlySends(actions, forward)
    && d'.sender == SenderDone(true) && d'.sent == d'.read == d.read
    && Side(last, !forward) == Side(c, !forward)
    && last.now == LastDue(c.now, d.queue.items)
  }

  lemma FirstAct(c: Connection, a: Action, rest: seq<Action>)
    requires CanStep(c, a)
    ensures Run(c, [a] + rest) == Run(Step(c, a), rest)
  {
    hide CanStep, Step;
    assert ([a] + rest)[1..] == rest;
  }

  /** A chunk on its way is sent. */
  lemma SendActs(c: Connection, forward: bool)
    requires Draining(c, forward) && Side(c, forward).sender.Sending?
    ensures CanStep(c, Thread(forward, Send))
    ensures var c' := Step(c, Thread(forward, Send));
      var d, d' := Side(c, forward), Side(c', forward);
      && Draining(c', forward) && d'.sender.Popping? && d'.queue == d.queue && d'.read == d.read
      && c'.now == c.now && Side(c', !forward) == Side(c, !forward)
  {
    StepOk(c, Thread(forward, Send));
  }

  /** The clock comes to the time of the head. */
  lemma TickActs(c: Connection, forward: bool, elapsed: nat)
    requires Draining(c, forward)
    ensures CanStep(c, Tick(elapsed))
    ensures var c' := Step(c, Tick(elapsed));
      Draining(c', forward) && c'.now == c.now + elapsed && c'.forward == c.forward && c'.backward == c.backward
  {
    StepOk(c, Tick(elapsed));
  }

  /** A head that is due is taken. */
  lemma PopActs(c: Connection, forward: bool)
    requires Draining(c, forward) && Side(c, forward).sender.Popping?
    requires Side(c, forward).queue.items != [] && Side(c, forward).queue.items[0].release <= c.now
    ensures CanStep(c, Thread(forward, Pop))
    ensures var c' := Step(c, Thread(forward, Pop));
      var d, d' := Side(c, forward), Side(c', forward);
      && Draining(c', forward) && d'.sender.Sending? && d'.queue.items == d.queue.items[1..] && d'.read == d.read
      && c'.now == c.now && Side(c', !forward) == Side(c, !forward)
  {
    StepOk(c, Thread(forward, Pop));
  }

  /** Behind the last chunk the sender ends. */
  lemma EndActs(c: Connection, forward: bool)
    requires Draining(c, forward) && Side(c, forward).sender.Popping? && Side(c, forward).queue.items == []
    ensures CanStep(c, Thread(forward, Pop))
    ensures var c' := Step(c, Thread(forward, Pop));
      var d, d' := Side(c, forward), Side(c', forward);
      && d'.sender == SenderDone(true) && d'.read == d.read && d'.sent == d'.read
      && c'.now == c.now && Side(c', !forward) == Side(c, !forward)
  {
    var a := Thread(forward, Pop);
    StepOk(c, a);
  }

  lemma DrainedBy(c: Connection, forward: bool, a: Action, c': Connection, rest: seq<Action>, last: Connection)
    requires CanStep(c, a) && Step(c, a) == c' && Drained(c', forward, rest, last)
    requires a.Tick? || a == Thread(forward, Pop) || a == Thread(forward, Send)
    requires Side(c', forward).read == Side(c, forward).read && Side(c', !forward) == Side(c, !forward)
    requires LastDue(c'.now, Side(c', forward).queue.items) == LastDue(c.now, Side(c, forward).queue.items)
    ensures Drained(c, forward, [a] + rest, last)
  {
    hide CanStep, Step, LastDue;
    FirstAct(c, a, rest);
  }

  lemma {:induction false} DrainFrom(c: Connection, forward: bool) returns (actions: seq<Action>, last: Connection)
    requires Draining(c, forward) && Side(c, forward).sender.Popping?
    ensures Drained(c, forward, actions, last)
    decreases |Side(c, forward).queue.items|
  {
    hide Draining, CanStep, Step, Drained, Run, Ok;
    var items := Side(c, forward).queue.items;
    var pop, send := Thread(forward, Pop), Thread(forward, Send);
    if items == [] {
      EndActs(c, forward);
      last := Step(c, pop);
      actions := [pop];
      EndIs(c, forward);
    } else {
      var tick := Tick(Later(c.now, items[0].release) - c.now);
      TickActs(c, forward, tick.elapsed);
      var ticked := Step(c, tick);
      PopActs(ticked, forward);
      var popped := Step(ticked, pop);
      SendActs(popped, forward);
      var sent := Step(popped, send);
      actions, last := DrainFrom(sent, forward);
      DrainedBy(popped, forward, send, sent, actions, last);
      actions := [send] + actions;
      DrainedBy(ticked, forward, pop, popped, actions, last);
      actions := [pop] + actions;
      DrainedBy(c, forward, tick, ticked, actions, last);
      actions := [tick] + actions;
    }
  }

  lemma EndIs(c: Connection, forward: bool)
    requires Draining(c, forward) && Side(c, forward).sender.Popping? && Side(c, forward).queue.items == []
    ensures CanStep(c, Thread(forward, Pop))
    ensures Drained(c, forward, [Thread(forward, Pop)], Step(c, Thread(forward, Pop)))
  {
    EndActs(c, forward);
    hide CanStep, Step, Draining;
    var pop := Thread(forward, Pop);
    FirstAct(c, pop, []);
    assert [pop] + [] == [pop];
  }

  /** Ticks, pops and sends bring the direction to its end, no later than when its
      last chunk is due. */
  lemma Drain(c: Connection, forward: bool) returns (actions: seq<Action>, last: Connection)
    requires Draining(c, forward)
    ensures Drained(c, forward, actions, last)
  {
    PopsOrSends(c, forward);
    hide Draining, CanStep, Step, Drained, Run, Ok;
    if Side(c, forward).sender.Sending? {
      var send := Thread(forward, Send);
      SendActs(c, forward);
      actions, last := DrainFrom(Step(c, send), forward);
      DrainedBy(c, forward, send, Step(c, send), actions, last);
      actions := [send] + actions;
    } else {
      actions, last := DrainFrom(c, forward);
    }
  }

  lemma PopsOrSends(c: Connection, forward: bool)
    requires Draining(c, forward)
    ensures Side(c, forward).sender.Sending? || Side(c, forward).sender.Popping?
  {
  }

  /** From every reached connection without a failure, a direction whose reader has
      ended can be brought to its end by ticks, pops and sends alone: everything
      read is sent, no later than when the last chunk is due. */
  lemma DrainsToTheEnd(c: Connection, forward: bool, now: int, delay: nat, maxBytes: nat, first: Bytes,
                       actions: seq<Action>)
      returns (more: seq<Action>, last: Connection)
    requires Reached(c, now, delay, maxBytes, first, actions) && !c.failed
    requires Side(c, forward).reader.ReaderDone?
    requires !Side(c, forward).sender.SenderFailing? && !Side(c, forward).sender.SenderDone?
    ensures Drained(c, forward, more, last)
  {
    StartOk(now, delay, maxBytes, first);
    RunOk(Start(now, delay, maxBytes, first), actions);
    assert Draining(c, forward);
    more, last := Drain(c, forward);
  }

  // ---------------------------------------------------------------------
  // Errors
  // ---------------------------------------------------------------------

  /** What counts as an error: a socket error while the server is not stopping, an
      exception, and a chunk that a closed or a full queue cannot take. */
  predicate IsError(c: Connection, d: Direction, m: Move) {
    match m
    case ReceiveError => !c.stopping
    case SendError(_) => !c.stopping
    case ReaderRaises => true
    case SenderRaises(_) => true
    case Enqueue =>
      d.reader.Pushing?
      && (d.queue.aborted || d.queue.eof || Size(d.queue.items) + |d.reader.data| > d.queue.maxBytes)
    case _ => false
  }

  predicate ByReader(m: Move) {
    m.Receive? || m.ReceiveEnd? || m.ReceiveError? || m.Enqueue? || m.Finish? || m.ReaderRaises? || m.ReaderFails?
  }

  predicate Closed(c: Connection) {
    c.failed && c.forward.queue.aborted && c.backward.queue.aborted
  }

  /** How far a failing thread has come. */
  predicate Past(c: Connection, s: Stage) {
    match s
    case Record => true
    case AbortForward => c.failed
    case AbortBackward => c.failed && c.forward.queue.aborted
    case CloseSockets => Closed(c)
  }

  /** A thread that has met an error records it and closes both queues before it is done. */
  predicate Doomed(c: Connection, forward: bool, reader: bool) {
    var d := Side(c, forward);
    if reader then
      (d.reader.ReaderFailing? && Past(c, d.reader.stage)) || (d.reader.ReaderDone? && Closed(c))
    else
      (d.sender.SenderFailing? && Past(c, d.sender.stage)) || (d.sender.SenderDone? && Closed(c))
  }

  lemma ErrorDooms(c: Connection, forward: bool, m: Move)
    requires CanStep(c, Thread(forward, m)) && IsError(c, Side(c, forward), m)
    ensures Doomed(Step(c, Thread(forward, m)), forward, ByReader(m))
  {
  }

  /** What a step adds to the record of failures. */
  lemma StepKeepsClosed(c: Connection, a: Action)
    requires CanStep(c, a)
    ensures var c' := Step(c, a);
      && (c.failed ==> c'.failed)
      && (c.forward.queue.aborted ==> c'.forward.queue.aborted)
      && (c.backward.queue.aborted ==> c'.backward.queue.aborted)
  {
    hide Sound;
    if a.Thread? { MovedKeepsAborted(c, Side(c, a.onForward), a.move); }
    hide Moved;
  }

  lemma MovedKeepsAborted(c: Connection, d: Direction, m: Move)
    requires Enabled(d, m) && Sound(d.queue)
    ensures d.queue.aborted ==> Moved(c, d, m).queue.aborted
  {
    hide Sound;
  }

  /** A step of another thread leaves the thread where it is. */
  lemma OtherThread(c: Connection, a: Action, forward: bool, reader: bool)
    requires CanStep(c, a) && !(a.Thread? && a.onForward == forward && ByReader(a.move) == reader)
    ensures var d, d' := Side(c, forward), Side(Step(c, a), forward);
      if reader then d'.reader == d.reader else d'.sender == d.sender
  {
    hide Sound;
  }

  lemma OwnStep(c: Connection, m: Move, forward: bool)
    requires CanStep(c, Thread(forward, m)) && Doomed(c, forward, ByReader(m))
    ensures Doomed(Step(c, Thread(forward, m)), forward, ByReader(m))
  {
    hide Sound;
  }

  lemma StaysDoomed(c: Connection, a: Action, forward: bool, reader: bool)
    requires CanStep(c, a) && Doomed(c, forward, reader)
    ensures Doomed(Step(c, a), forward, reader)
  {
    if a.Thread? && a.onForward == forward && ByReader(a.move) == reader {
      hide Doomed, CanStep, Step;
      OwnStep(c, a.move, forward);
    } else {
      StepKeepsClosed(c, a);
      OtherThread(c, a, forward, reader);
      hide CanStep, Step;
    }
  }

  lemma {:induction false} RunStaysDoomed(c: Connection, actions: seq<Action>, forward: bool, reader: bool)
    requires Run(c, actions).Some? && Doomed(c, forward, reader)
    ensures Doomed(Run(c, actions).value, forward, reader)
    decreases |actions|
  {
    hide Doomed, CanStep, Step;
    if actions != [] {
      StaysDoomed(c, actions[0], forward, reader);
      RunStaysDoomed(Step(c, actions[0]), actions[1..], forward, reader);
    }
  }

  /** Whatever happens after an error: when the thread that met it is done, the
      failure is recorded and both queues are closed. */
  lemma ErrorsClose(c: Connection, forward: bool, m: Move, after: seq<Action>)
    requires CanStep(c, Thread(forward, m)) && IsError(c, Side(c, forward), m)
    requires Run(Step(c, Thread(forward, m)), after).Some?
    ensures var last := Run(Step(c, Thread(forward, m)), after).value;
      (if ByReader(m) then Side(last, forward).reader.ReaderDone? else Side(last, forward).sender.SenderDone?)
        ==> Closed(last)
  {
    ErrorDooms(c, forward, m);
    hide CanStep, Step;
    RunStaysDoomed(Step(c, Thread(forward, m)), after, forward, ByReader(m));
  }

  /** Some step of the run is an error. */
  predicate Errs(c: Connection, actions: seq<Action>)
    decreases |actions|
  {
    && actions != [] && CanStep(c, actions[0])
    && ((actions[0].Thread? && IsError(c, Side(c, actions[0].onForward), actions[0].move))
        || Errs(Step(c, actions[0]), actions[1..]))
  }

  predicate Calm(c: Connection) {
    && !c.failed && CalmSide(c.forward) && CalmSide(c.backward)
  }

  predicate CalmSide(d: Direction) {
    !d.queue.aborted && !d.reader.ReaderFailing? && !d.sender.SenderFailing?
  }

  lemma CalmStep(c: Connection, a: Action)
    requires Ok(c) && Calm(c) && CanStep(c, a)
    requires !(a.Thread? && IsError(c, Side(c, a.onForward), a.move))
    ensures Calm(Step(c, a))
  {
    if a.Thread? { CalmMove(c, Side(c, a.onForward), a.move); }
    hide Moved, DirectionOk;
  }

  lemma CalmMove(c: Connection, d: Direction, m: Move)
    requires DirectionOk(c, d) && CalmSide(d) && Enabled(d, m) && !IsError(c, d, m)
    ensures CalmSide(Moved(c, d, m))
  {
    hide Timely, Conserved, Content;
  }

  lemma {:induction false} CalmRun(c: Connection, actions: seq<Action>)
    requires Ok(c) && Calm(c) && Run(c, actions).Some? && !Errs(c, actions)
    ensures Calm(Run(c, actions).value)
    decreases |actions|
  {
    hide Ok, Calm, CanStep, Step, IsError;
    if actions != [] {
      CalmStep(c, actions[0]);
      StepOk(c, actions[0]);
      CalmRun(Step(c, actions[0]), actions[1..]);
    }
  }

  /** A run fails only by an error: without one nothing is recorded, no thread is
      failing and no queue is closed. */
  lemma FailsOnlyByError(c: Connection, now: int, delay: nat, maxBytes: nat, first: Bytes, actions: seq<Action>)
    requires Reached(c, now, delay, maxBytes, first, actions)
    requires !Errs(Start(now, delay, maxBytes, first), actions)
    ensures Calm(c)
  {
    StartOk(now, delay, maxBytes, first);
    CalmRun(Start(now, delay, maxBytes, first), actions);
  }
}
