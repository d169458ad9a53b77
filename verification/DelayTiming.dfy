// The delay as the two ends see it: whatever the destination has been given, the
// source had already sent at least the delay earlier.
module DelayTiming {
  import opened Options
  import opened DelayQueue
  import opened DelayProtocol
  import opened DelayProgress

  /** All moments of a run, the first included. */
  function Moments(c: Connection, actions: seq<Action>): (h: seq<Connection>)
    requires Run(c, actions).Some?
    ensures h != []
    decreases |actions|
  {
    if actions == [] then [c] else [c] + Moments(Step(c, actions[0]), actions[1..])
  }

  /** At some moment no later than `time`, `n` bytes had been read. */
  ghost predicate Seen(h: seq<Connection>, forward: bool, time: int, n: nat) {
    exists k :: 0 <= k < |h| && h[k].now <= time && n <= |Side(h[k], forward).read|
  }

  /** Each chunk behind `base` bytes had been read by its arrival. */
  ghost predicate ItemsSeen(h: seq<Connection>, forward: bool, base: nat, items: seq<Chunk>)
    decreases |items|
  {
    items != [] ==>
      && Seen(h, forward, items[0].arrival, base + |items[0].data|)
      && ItemsSeen(h, forward, base + |items[0].data|, items[1..])
  }

  predicate Alive(d: Direction) {
    (d.sender.Popping? || d.sender.Sending?) && !d.queue.aborted
  }

  ghost predicate SideTimed(h: seq<Connection>, c: Connection, forward: bool) {
    var d := Side(c, forward);
    var base := |d.sent| + |InFlight(d)|;
    && (d.sent != [] ==> Seen(h, forward, c.now - c.delay, |d.sent|))
    && (d.sender.Sending? ==> d.sender.at <= c.now && Seen(h, forward, d.sender.arrival, base))
    && (Alive(d) ==> ItemsSeen(h, forward, base, d.queue.items))
    && (Alive(d) && d.reader.Pushing? ==>
          Seen(h, forward, d.reader.arrival, base + Size(d.queue.items) + |d.reader.data|))
  }

  lemma SeenLess(h: seq<Connection>, forward: bool, time: int, later: int, n: nat, less: nat)
    requires Seen(h, forward, time, n) && time <= later && less <= n
    ensures Seen(h, forward, later, less)
  {
  }

  lemma SeenMore(h: seq<Connection>, more: Connection, forward: bool, time: int, n: nat)
    requires Seen(h, forward, time, n)
    ensures Seen(h + [more], forward, time, n)
  {
    var k :| 0 <= k < |h| && h[k].now <= time && n <= |Side(h[k], forward).read|;
    assert (h + [more])[k] == h[k];
  }

  lemma SeenNow(h: seq<Connection>, c: Connection, forward: bool, n: nat)
    requires n <= |Side(c, forward).read|
    ensures Seen(h + [c], forward, c.now, n)
  {
    assert (h + [c])[|h|] == c;
  }

  lemma {:induction false} ItemsSeenMore(h: seq<Connection>, more: Connection, forward: bool, base: nat,
                                         items: seq<Chunk>)
    requires ItemsSeen(h, forward, base, items)
    ensures ItemsSeen(h + [more], forward, base, items)
    decreases |items|
  {
    hide Seen;
    if items != [] {
      SeenMore(h, more, forward, items[0].arrival, base + |items[0].data|);
      ItemsSeenMore(h, more, forward, base + |items[0].data|, items[1..]);
    }
  }

  lemma {:induction false} ItemsSeenLast(h: seq<Connection>, forward: bool, base: nat, items: seq<Chunk>, last: Chunk)
    requires ItemsSeen(h, forward, base, items)
    requires Seen(h, forward, last.arrival, base + Size(items) + |last.data|)
    ensures ItemsSeen(h, forward, base, items + [last])
    decreases |items|
  {
    hide Seen;
    var all := items + [last];
    if items == [] {
      assert all[1..] == [];
    } else {
      assert all[1..] == items[1..] + [last];
      ItemsSeenLast(h, forward, base + |items[0].data|, items[1..], last);
    }
  }

  lemma {:induction false} ContentSize(items: seq<Chunk>)
    ensures |Content(items)| == Size(items)
  {
    if items != [] { ContentSize(items[1..]); }
  }

  /** Looking back from a later moment changes nothing. */
  lemma TimedLater(h: seq<Connection>, c: Connection, more: Connection, forward: bool)
    requires SideTimed(h, c, forward)
    ensures SideTimed(h + [more], c, forward)
  {
    hide Seen, ItemsSeen;
    var d := Side(c, forward);
    var base := |d.sent| + |InFlight(d)|;
    if d.sent != [] { SeenMore(h, more, forward, c.now - c.delay, |d.sent|); }
    if d.sender.Sending? { SeenMore(h, more, forward, d.sender.arrival, base); }
    if Alive(d) {
      ItemsSeenMore(h, more, forward, base, d.queue.items);
      if d.reader.Pushing? {
        SeenMore(h, more, forward, d.reader.arrival, base + Size(d.queue.items) + |d.reader.data|);
      }
    }
  }

  /** Time goes on, and flags do not matter. */
  lemma TimedOn(h: seq<Connection>, c: Connection, c': Connection, forward: bool)
    requires SideTimed(h, c, forward) && c.now <= c'.now && c'.delay == c.delay
    requires Side(c', forward) == Side(c, forward)
    ensures SideTimed(h, c', forward)
  {
    hide Seen, ItemsSeen;
    var d := Side(c, forward);
    if d.sent != [] { SeenLess(h, forward, c.now - c.delay, c'.now - c.delay, |d.sent|, |d.sent|); }
  }

  lemma TimedAborted(h: seq<Connection>, c: Connection, c': Connection, forward: bool)
    requires SideTimed(h, c, forward) && c.now == c'.now && c'.delay == c.delay
    requires Side(c', forward) == Side(c, forward).(queue := Aborted(Side(c, forward).queue))
    ensures SideTimed(h, c', forward)
  {
    hide Seen, ItemsSeen;
  }

  // ---------------------------------------------------------------------
  // One move
  // ---------------------------------------------------------------------

  /** The connection after a move of one direction, before any stage of `fail`. */
  function With(c: Connection, forward: bool, d: Direction): Connection {
    if forward then c.(forward := d) else c.(backward := d)
  }

  lemma ReadLength(c: Connection, d: Direction)
    requires DirectionOk(c, d) && Alive(d)
    ensures |d.read| == |d.sent| + |InFlight(d)| + Size(d.queue.items) + |d.unpushed|
  {
    ContentSize(d.queue.items);
  }

  lemma ReceiveTimed(h: seq<Connection>, c: Connection, forward: bool, data: Bytes)
    requires DirectionOk(c, Side(c, forward)) && SideTimed(h, c, forward) && Enabled(Side(c, forward), Receive(data))
    ensures var c' := With(c, forward, Moved(c, Side(c, forward), Receive(data)));
      SideTimed(h + [c'], c', forward)
  {
    var d := Side(c, forward);
    var c' := With(c, forward, Moved(c, d, Receive(data)));
    TimedLater(h, c, c', forward);
    if Alive(d) {
      ReadLength(c, d);
      SeenNow(h, c', forward, |d.sent| + |InFlight(d)| + Size(d.queue.items) + |data|);
    }
    hide Seen, ItemsSeen, DirectionOk;
  }

  lemma EnqueueTimed(h: seq<Connection>, c: Connection, forward: bool)
    requires DirectionOk(c, Side(c, forward)) && SideTimed(h, c, forward) && Enabled(Side(c, forward), Enqueue)
    ensures SideTimed(h, With(c, forward, Moved(c, Side(c, forward), Enqueue)), forward)
  {
    hide Seen, ItemsSeen, Size;
    var d := Side(c, forward);
    var x, base := d.reader, |d.sent| + |InFlight(d)|;
    if Accepts(d.queue, x.data) && Alive(d) {
      ItemsSeenLast(h, forward, base, d.queue.items, Chunk(x.arrival + c.delay, x.arrival, x.data));
    }
  }

  lemma PopTimed(h: seq<Connection>, c: Connection, forward: bool)
    requires DirectionOk(c, Side(c, forward)) && SideTimed(h, c, forward) && Enabled(Side(c, forward), Pop)
    ensures SideTimed(h, With(c, forward, Moved(c, Side(c, forward), Pop)), forward)
  {
    hide Seen;
  }

  lemma SendTimed(h: seq<Connection>, c: Connection, forward: bool, m: Move)
    requires DirectionOk(c, Side(c, forward)) && SideTimed(h, c, forward) && Enabled(Side(c, forward), m)
    requires m.Send? || m.SendError? || m.SenderRaises?
    ensures SideTimed(h, With(c, forward, Moved(c, Side(c, forward), m)), forward)
  {
    hide Seen, ItemsSeen;
    var d := Side(c, forward);
    if d.sender.Sending? {
      var d' := Moved(c, d, m);
      SeenLess(h, forward, d.sender.arrival, c.now - c.delay, |d.sent| + |d.sender.data|, |d'.sent|);
    }
  }

  lemma PlainTimed(h: seq<Connection>, c: Connection, forward: bool, m: Move)
    requires DirectionOk(c, Side(c, forward)) && SideTimed(h, c, forward) && Enabled(Side(c, forward), m)
    requires !m.Receive? && !m.Enqueue? && !m.Pop? && !m.Send? && !m.SendError? && !m.SenderRaises?
    ensures SideTimed(h, With(c, forward, Moved(c, Side(c, forward), m)), forward)
  {
    hide Seen, ItemsSeen, DirectionOk;
  }

  lemma MovedTimed(h: seq<Connection>, c: Connection, forward: bool, m: Move)
    requires DirectionOk(c, Side(c, forward)) && SideTimed(h, c, forward) && Enabled(Side(c, forward), m)
    ensures var c' := With(c, forward, Moved(c, Side(c, forward), m));
      SideTimed(h + [c'], c', forward)
  {
    assert Sound(Side(c, forward).queue);
    hide SideTimed, DirectionOk, Moved;
    var c' := With(c, forward, Moved(c, Side(c, forward), m));
    if m.Receive? {
      ReceiveTimed(h, c, forward, m.data);
    } else {
      if m.Enqueue? {
        EnqueueTimed(h, c, forward);
      } else if m.Pop? {
        PopTimed(h, c, forward);
      } else if m.Send? || m.SendError? || m.SenderRaises? {
        SendTimed(h, c, forward, m);
      } else {
        PlainTimed(h, c, forward, m);
      }
      TimedLater(h, c', c', forward);
    }
  }

  // ---------------------------------------------------------------------
  // Whole runs
  // ---------------------------------------------------------------------

  ghost predicate Timed(h: seq<Connection>, c: Connection) {
    SideTimed(h, c, true) && SideTimed(h, c, false)
  }

  /** The last moment only has to have been read as far. */
  lemma SameReads(h: seq<Connection>, last: Connection, other: Connection, c: Connection, forward: bool)
    requires SideTimed(h + [last], c, forward)
    requires other.now == last.now && Side(other, forward).read == Side(last, forward).read
    ensures SideTimed(h + [other], c, forward)
  {
    SeenSame(h, last, other, forward);
    hide Seen;
    var d := Side(c, forward);
    if Alive(d) { ItemsSame(h, last, other, forward, |d.sent| + |InFlight(d)|, d.queue.items); }
  }

  lemma SeenSame(h: seq<Connection>, last: Connection, other: Connection, forward: bool)
    requires other.now == last.now && Side(other, forward).read == Side(last, forward).read
    ensures forall time: int, n: nat :: Seen(h + [last], forward, time, n) ==> Seen(h + [other], forward, time, n)
  {
    forall time: int, n: nat | Seen(h + [last], forward, time, n) ensures Seen(h + [other], forward, time, n) {
      var k :| 0 <= k < |h| + 1 && (h + [last])[k].now <= time && n <= |Side((h + [last])[k], forward).read|;
      assert k < |h| ==> (h + [other])[k] == (h + [last])[k];
      assert k == |h| ==> (h + [other])[k] == other && (h + [last])[k] == last;
    }
  }

  lemma {:induction false} ItemsSame(h: seq<Connection>, last: Connection, other: Connection, forward: bool, base: nat,
                                     items: seq<Chunk>)
    requires ItemsSeen(h + [last], forward, base, items)
    requires other.now == last.now && Side(other, forward).read == Side(last, forward).read
    ensures ItemsSeen(h + [other], forward, base, items)
    decreases |items|
  {
    SeenSame(h, last, other, forward);
    hide Seen;
    if items != [] { ItemsSame(h, last, other, forward, base + |items[0].data|, items[1..]); }
  }

  lemma StageTimed(h: seq<Connection>, c: Connection, s: Option<Stage>, forward: bool)
    requires SideTimed(h, c, forward)
    ensures SideTimed(h, StageDone(c, s), forward)
    ensures Side(StageDone(c, s), forward).read == Side(c, forward).read && StageDone(c, s).now == c.now
  {
    hide SideTimed;
    var c' := StageDone(c, s);
    if Side(c', forward) == Side(c, forward) {
      TimedOn(h, c, c', forward);
    } else {
      TimedAborted(h, c, c', forward);
    }
  }

  lemma ThreadTimed(h: seq<Connection>, c: Connection, onForward: bool, m: Move, forward: bool)
    requires Ok(c) && CanStep(c, Thread(onForward, m)) && SideTimed(h, c, forward)
    ensures var c' := Step(c, Thread(onForward, m)); SideTimed(h + [c'], c', forward)
  {
    var d := Side(c, onForward);
    var moved := With(c, onForward, Moved(c, d, m));
    var stage := StageOf(d, m);
    assert Step(c, Thread(onForward, m)) == StageDone(moved, stage);
    hide SideTimed, DirectionOk, Moved, Enabled;
    if forward == onForward {
      MovedTimed(h, c, forward, m);
    } else {
      TimedOn(h, c, moved, forward);
      TimedLater(h, moved, moved, forward);
    }
    StageTimed(h + [moved], moved, stage, forward);
    SameReads(h, moved, StageDone(moved, stage), StageDone(moved, stage), forward);
  }

  lemma StepTimed(h: seq<Connection>, c: Connection, a: Action, forward: bool)
    requires Ok(c) && CanStep(c, a) && SideTimed(h, c, forward)
    ensures SideTimed(h + [Step(c, a)], Step(c, a), forward)
  {
    hide SideTimed, Ok;
    match a
    case Thread(onForward, m) => ThreadTimed(h, c, onForward, m, forward);
    case _ =>
      TimedOn(h, c, Step(c, a), forward);
      TimedLater(h, Step(c, a), Step(c, a), forward);
  }

  lemma {:induction false} RunTimed(h: seq<Connection>, c: Connection, actions: seq<Action>, forward: bool)
    requires Ok(c) && Run(c, actions).Some? && SideTimed(h + [c], c, forward)
    ensures SideTimed(h + Moments(c, actions), Run(c, actions).value, forward)
    decreases |actions|
  {
    hide SideTimed, Ok, CanStep, Step;
    if actions != [] {
      var next := Step(c, actions[0]);
      StepOk(c, actions[0]);
      StepTimed(h + [c], c, actions[0], forward);
      RunTimed(h + [c], next, actions[1..], forward);
      assert h + [c] + Moments(next, actions[1..]) == h + Moments(c, actions);
    }
  }

  lemma StartTimed(now: int, delay: nat, maxBytes: nat, first: Bytes, forward: bool)
    ensures var c := Start(now, delay, maxBytes, first); SideTimed([] + [c], c, forward)
  {
    var c := Start(now, delay, maxBytes, first);
    SeenNow([], c, forward, |Side(c, forward).read|);
    hide Seen;
  }

  ghost predicate ReadEarlier(h: seq<Connection>, c: Connection, forward: bool, delay: nat) {
    exists k ::
      0 <= k < |h| && h[k].now + delay <= c.now && Side(c, forward).sent <= Side(h[k], forward).read
  }

  /** In every run, whatever a destination has been given, the source had sent by a
      moment of the run that lies at least the delay back. */
  lemma DelayedBytes(c: Connection, forward: bool, now: int, delay: nat, maxBytes: nat, first: Bytes,
                     actions: seq<Action>)
    requires Reached(c, now, delay, maxBytes, first, actions) && Side(c, forward).sent != []
    ensures ReadEarlier(Moments(Start(now, delay, maxBytes, first), actions), c, forward, delay)
  {
    var start := Start(now, delay, maxBytes, first);
    var h := Moments(start, actions);
    StartOk(now, delay, maxBytes, first);
    StartTimed(now, delay, maxBytes, first, forward);
    RunTimed([], start, actions, forward);
    assert [] + h == h;
    RunKeepsLimits(start, actions);
    var k :| 0 <= k < |h| && h[k].now <= c.now - c.delay && |Side(c, forward).sent| <= |Side(h[k], forward).read|;
    DeliveredInOrder(c, Side(c, forward), now, delay, maxBytes, first, actions);
    ReadsGrow(start, actions, k, forward);
    PrefixOf(Side(c, forward).sent, Side(h[k], forward).read, Side(c, forward).read);
  }

  lemma PrefixOf(a: Bytes, b: Bytes, whole: Bytes)
    requires a <= whole && b <= whole && |a| <= |b|
    ensures a <= b
  {
    assert whole[..|b|][..|a|] == whole[..|a|];
  }

  lemma StepReads(c: Connection, a: Action, forward: bool)
    requires CanStep(c, a)
    ensures Side(c, forward).read <= Side(Step(c, a), forward).read
  {
    hide Sound;
  }

  lemma {:induction false} ReadsGrow(c: Connection, actions: seq<Action>, k: nat, forward: bool)
    requires Run(c, actions).Some? && k < |Moments(c, actions)|
    ensures Side(Moments(c, actions)[k], forward).read <= Side(Run(c, actions).value, forward).read
    decreases |actions|
  {
    hide CanStep, Step;
    if actions != [] {
      StepReads(c, actions[0], forward);
      var next := Step(c, actions[0]);
      MomentsFirst(next, actions[1..]);
      ReadsGrow(next, actions[1..], if k == 0 then 0 else k - 1, forward);
    }
  }

  lemma MomentsFirst(c: Connection, actions: seq<Action>)
    requires Run(c, actions).Some?
    ensures Moments(c, actions)[0] == c
  {
  }
}
