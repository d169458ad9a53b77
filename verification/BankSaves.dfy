// The save protocol around a bank memory. The slot thread observes, loads and
// relogs; a service publishes captured rows in submission order, may drop a
// capture it superseded or failed to write, and is acknowledged later, when the
// memory may have moved on. No observed bank may look saved before it is.
module BankSaves {
  import opened Options
  import opened BankMemory

  /** Rows handed to the service, with the wrapped and the true generation. */
  datatype Capture = Capture(rows: seq<Row>, generation: u64, bump: nat)

  /** `bumps` counts every generation bump without wrapping; `filledAt` is the
      bump that brought the current rows, `durableAt` the bump of the durable ones. */
  datatype World = World(
    memory: Memory, durable: seq<Row>,
    pending: seq<Capture>, published: seq<Capture>,
    bumps: nat, filledAt: nat, durableAt: nat)

  datatype Event =
    | Frame(snapshot: Snapshot, unixSecs: u64, after: Memory)
    | SessionStart(unixSecs: u64)
    | Submit
    | Publish
    | Drop(which: nat)
    | Acknowledge(which: nat)

  /** The capture's generation is the current one exactly when it looks so: no
      whole number of wraps lies between the two. */
  predicate Unwrapped(w: World, c: Capture) {
    w.bumps == c.bump || (w.bumps - c.bump) % GENERATIONS != 0
  }

  ghost predicate CanHappen(w: World, e: Event) {
    match e
    case Frame(s, secs, after) => Wellformed(s) && IsTracked(w.memory, s, secs, after)
    case SessionStart(_) => true
    case Submit => w.memory.dirty
    case Publish => w.pending != []
    case Drop(which) => which < |w.pending|
    case Acknowledge(which) => which < |w.published| && Unwrapped(w, w.published[which])
  }

  /** What happens. A session start keeps a known memory and fills an unknown one
      from the durable rows; a refused file leaves it as it was. */
  ghost function Happened(w: World, e: Event): World
    requires CanHappen(w, e)
  {
    match e
    case Frame(s, _, after) =>
      if EventOf(w.memory, s) == Opened || EventOf(w.memory, s) == Observed then
        w.(memory := after, bumps := w.bumps + 1, filledAt := w.bumps + 1)
      else w.(memory := after)
    case SessionStart(secs) =>
      if Known(w.memory) then w.(memory := Relogged(w.memory), bumps := w.bumps + 1)
      else if GoodHint(w.durable) then
        w.(memory := Loaded(w.memory, w.durable, secs),
           bumps := w.bumps + 1, filledAt := w.bumps + 1, durableAt := w.bumps + 1)
      else w
    case Submit =>
      w.(pending := w.pending + [Capture(w.memory.rows, w.memory.generation, w.bumps)])
    case Publish =>
      w.(durable := w.pending[0].rows, durableAt := w.pending[0].bump,
         pending := w.pending[1..], published := w.published + [w.pending[0]])
    case Drop(which) => w.(pending := w.pending[..which] + w.pending[which + 1..])
    case Acknowledge(which) =>
      w.(memory := Saved(w.memory, w.published[which].generation),
         published := w.published[..which] + w.published[which + 1..])
  }

  ghost predicate History(w: World, events: seq<Event>, last: World)
    decreases |events|
  {
    if events == [] then last == w
    else CanHappen(w, events[0]) && History(Happened(w, events[0]), events[1..], last)
  }

  /** A new process: nothing observed, some file on disk. */
  function Boot(durable: seq<Row>): World {
    World(FRESH, durable, [], [], 0, 0, 0)
  }

  // ---------------------------------------------------------------------
  // The invariant
  // ---------------------------------------------------------------------

  /** A capture is of its time, and of the current rows when taken since they came. */
  predicate CaptureOk(w: World, c: Capture) {
    && c.bump <= w.bumps && c.generation == c.bump % GENERATIONS
    && (c.bump >= w.filledAt ==> c.rows == w.memory.rows)
  }

  ghost predicate Ok(w: World) {
    && w.memory.generation == w.bumps % GENERATIONS
    && w.filledAt <= w.bumps && w.durableAt <= w.bumps
    && (forall k :: 0 <= k < |w.pending| ==> CaptureOk(w, w.pending[k]) && w.durableAt <= w.pending[k].bump)
    && (forall i, j :: 0 <= i < j < |w.pending| ==> w.pending[i].bump <= w.pending[j].bump)
    && (forall k :: 0 <= k < |w.published| ==> CaptureOk(w, w.published[k]) && w.published[k].bump <= w.durableAt)
    && (if Known(w.memory) then
          && Index(w.memory.rows)
          && (w.durableAt >= w.filledAt ==> w.durable == w.memory.rows)
          && (!w.memory.dirty ==> w.durableAt >= w.filledAt)
        else w.bumps == 0 && w.pending == [] && w.published == [] && !w.memory.dirty)
  }

  lemma WrapNext(n: nat)
    ensures Next(n % GENERATIONS) == (n + 1) % GENERATIONS
  {
  }

  lemma FrameOk(w: World, e: Event)
    requires Ok(w) && e.Frame? && CanHappen(w, e)
    ensures Ok(Happened(w, e))
  {
    WrapNext(w.bumps);
    var ev := EventOf(w.memory, e.snapshot);
    var w' := Happened(w, e);
    if ev == Opened || ev == Observed {
      assert e.after.generation == Next(w.memory.generation);
      assert e.after.dirty;
    }
  }

  lemma SessionOk(w: World, e: Event)
    requires Ok(w) && e.SessionStart?
    ensures Ok(Happened(w, e))
  {
    WrapNext(w.bumps);
  }

  /** Two counts have the same wrapped generation exactly when whole wraps lie between them. */
  lemma SameGeneration(a: nat, b: nat)
    requires a <= b
    ensures a % GENERATIONS == b % GENERATIONS <==> (b - a) % GENERATIONS == 0
  {
  }

  lemma AcknowledgeOk(w: World, e: Event)
    requires Ok(w) && e.Acknowledge? && CanHappen(w, e)
    ensures Ok(Happened(w, e))
  {
    var c := w.published[e.which];
    assert CaptureOk(w, c);
    if w.memory.generation == c.generation {
      SameGeneration(c.bump, w.bumps);
    }
    var w' := Happened(w, e);
    forall k | 0 <= k < |w'.published| ensures CaptureOk(w', w'.published[k]) && w'.published[k].bump <= w'.durableAt {
      var j := if k < e.which then k else k + 1;
      assert w'.published[k] == w.published[j];
      assert CaptureOk(w, w.published[j]);
    }
    assert forall k :: 0 <= k < |w'.pending| ==> CaptureOk(w, w.pending[k]);
  }

  lemma SubmitOk(w: World)
    requires Ok(w) && CanHappen(w, Submit)
    ensures Ok(Happened(w, Submit))
  {
    assert forall k :: 0 <= k < |w.pending| ==> CaptureOk(w, w.pending[k]);
    assert forall k :: 0 <= k < |w.published| ==> CaptureOk(w, w.published[k]);
  }

  lemma PublishOk(w: World)
    requires Ok(w) && CanHappen(w, Publish)
    ensures Ok(Happened(w, Publish))
  {
    var c, w' := w.pending[0], Happened(w, Publish);
    assert CaptureOk(w, c);
    forall k | 0 <= k < |w'.pending| ensures CaptureOk(w', w'.pending[k]) && w'.durableAt <= w'.pending[k].bump {
      assert w'.pending[k] == w.pending[k + 1] && CaptureOk(w, w.pending[k + 1]);
    }
    forall k | 0 <= k < |w'.published| ensures CaptureOk(w', w'.published[k]) && w'.published[k].bump <= w'.durableAt {
      assert k < |w.published| ==> CaptureOk(w, w.published[k]);
    }
  }

  lemma DropOk(w: World, which: nat)
    requires Ok(w) && CanHappen(w, Drop(which))
    ensures Ok(Happened(w, Drop(which)))
  {
    var w' := Happened(w, Drop(which));
    forall k | 0 <= k < |w'.pending| ensures CaptureOk(w', w'.pending[k]) && w'.durableAt <= w'.pending[k].bump {
      var j := if k < which then k else k + 1;
      assert w'.pending[k] == w.pending[j] && CaptureOk(w, w.pending[j]);
    }
    assert forall k :: 0 <= k < |w.published| ==> CaptureOk(w, w.published[k]);
  }

  lemma EventOk(w: World, e: Event)
    requires Ok(w) && CanHappen(w, e)
    ensures Ok(Happened(w, e))
  {
    hide Ok, Happened;
    match e
    case Frame(_, _, _) => FrameOk(w, e);
    case SessionStart(_) => SessionOk(w, e);
    case Acknowledge(_) => AcknowledgeOk(w, e);
    case Submit => SubmitOk(w);
    case Publish => PublishOk(w);
    case Drop(which) => DropOk(w, which);
  }

  lemma {:induction false} HistoryOk(w: World, events: seq<Event>, last: World)
    requires Ok(w) && History(w, events, last)
    ensures Ok(last)
    decreases |events|
  {
    hide Ok;
    if events != [] {
      EventOk(w, events[0]);
      HistoryOk(Happened(w, events[0]), events[1..], last);
    }
  }

  /** No observed bank is lost: whenever nothing is marked as unsaved, the known
      rows are the durable rows. */
  lemma CleanMeansDurable(durable: seq<Row>, events: seq<Event>, last: World)
    requires History(Boot(durable), events, last)
    ensures !last.memory.dirty && Known(last.memory) ==> last.durable == last.memory.rows
    ensures !Known(last.memory) ==> last.durable == durable
  {
    assert Ok(Boot(durable));
    HistoryOk(Boot(durable), events, last);
    if !Known(last.memory) { UnknownTouchesNothing(Boot(durable), events, last); }
  }

  /** A new process gets back what was saved: when the last one ended with nothing
      unsaved, and with no more rows than a hint may have, its rows are loaded. */
  lemma RelaunchRestores(durable: seq<Row>, events: seq<Event>, last: World, secs: u64)
    requires History(Boot(durable), events, last)
    requires Known(last.memory) && !last.memory.dirty && |last.memory.rows| <= MAX_HINT_ROWS
    ensures var m := Happened(Boot(last.durable), SessionStart(secs)).memory;
      m.rows == last.memory.rows && m.origin == Hint && !m.dirty
  {
    assert Ok(Boot(durable));
    HistoryOk(Boot(durable), events, last);
    CleanMeansDurable(durable, events, last);
    hide History, Index;
  }

  lemma {:induction false} UnknownTouchesNothing(w: World, events: seq<Event>, last: World)
    requires Ok(w) && History(w, events, last) && !Known(last.memory)
    ensures !Known(w.memory) && last.durable == w.durable
    decreases |events|
  {
    if events != [] {
      EventOk(w, events[0]);
      UnknownTouchesNothing(Happened(w, events[0]), events[1..], last);
    }
  }

  // ---------------------------------------------------------------------
  // What the wrapping generation costs
  // ---------------------------------------------------------------------

  predicate Shielded(m: Memory, durable: seq<Row>) {
    m.dirty || m.rows == durable
  }

  /** An acknowledgement keeps unwritten rows marked exactly when no whole number
      of wraps lies between capture and acknowledgement, or the rows are durable anyway. */
  lemma AcknowledgeIff(w: World, which: nat)
    requires Ok(w) && w.memory.dirty && which < |w.published|
    ensures var c := w.published[which];
      Shielded(Saved(w.memory, c.generation), w.durable) <==> Unwrapped(w, c) || w.memory.rows == w.durable
  {
    var c := w.published[which];
    assert CaptureOk(w, c);
    SameGeneration(c.bump, w.bumps);
  }

  function Relogs(n: nat): seq<Event> {
    if n == 0 then [] else [SessionStart(0)] + Relogs(n - 1)
  }

  /** Any number of relogs only moves the generation on. */
  lemma {:induction false} RelogsHappen(w: World, n: nat) returns (last: World)
    requires Ok(w) && Known(w.memory)
    ensures History(w, Relogs(n), last) && Ok(last) && last.bumps == w.bumps + n
    ensures last.published == w.published && last.durable == w.durable
    ensures last.memory.rows == w.memory.rows && last.memory.dirty == w.memory.dirty && Known(last.memory)
    decreases n
  {
    if n == 0 {
      last := w;
    } else {
      var e := SessionStart(0);
      EventOk(w, e);
      var next := Happened(w, e);
      last := RelogsHappen(next, n - 1);
      assert Relogs(n)[0] == e && Relogs(n)[1..] == Relogs(n - 1);
    }
  }

  lemma {:induction false} HistoryConcat(w: World, a: seq<Event>, mid: World, b: seq<Event>, last: World)
    requires History(w, a, mid) && History(mid, b, last)
    ensures History(w, a + b, last)
    decreases |a|
  {
    if a == [] {
      assert a + b == b;
    } else {
      assert (a + b)[1..] == a[1..] + b;
      HistoryConcat(Happened(w, a[0]), a[1..], mid, b, last);
    }
  }

  /** An empty bank is opened, saved and published; then one with a coin is seen. */
  lemma UnsavedCoin() returns (events: seq<Event>, w: World)
    ensures History(Boot([Row(2, 1)]), events, w) && Ok(w) && Known(w.memory) && w.memory.dirty
    ensures w.durable == [] && w.memory.rows == [Row(1, 1)] && w.bumps == 2
    ensures |w.published| == 1 && w.published[0].bump == 1
  {
    var w0 := Boot([Row(2, 1)]);
    assert Ok(w0);
    var seen := ObservedAt(0, 0, 0);
    var open := Memory([], Some(seen), Session, 1, Some(1), true);
    var coin := Memory([Row(1, 1)], Some(seen), Session, 2, Some(2), true);
    var e1 := Frame(Snapshot(true, Some(1), [], 0, 0), 0, open);
    var e4 := Frame(Snapshot(true, Some(2), [Row(1, 1)], 0, 0), 0, coin);
    assert IsTracked(FRESH, e1.snapshot, 0, open) by { EmptyFolds(); }
    var w1 := Happened(w0, e1);
    var w2 := Happened(w1, Submit);
    var w3 := Happened(w2, Publish);
    assert IsTracked(open, e4.snapshot, 0, coin) by { CoinFolds(); }
    w := Happened(w3, e4);
    events := [e1, Submit, Publish, e4];
    OneEvent(w3, e4, [], w);
    OneEvent(w2, Publish, [e4], w);
    OneEvent(w1, Submit, [Publish, e4], w);
    OneEvent(w0, e1, [Submit, Publish, e4], w);
    HistoryOk(w0, events, w);
  }

  lemma OneEvent(w: World, e: Event, events: seq<Event>, last: World)
    requires CanHappen(w, e) && History(Happened(w, e), events, last)
    ensures History(w, [e] + events, last)
  {
    assert ([e] + events)[1..] == events;
  }

  lemma EmptyFolds()
    ensures Folds([], [])
  {
  }

  lemma CoinFolds()
    ensures Folds([Row(1, 1)], [Row(1, 1)])
  {
    forall id: i32 ensures Held([Row(1, 1)], id) == Clamped(Total([Row(1, 1)], id)) {
      assert [Row(1, 1)][1..] == [];
    }
  }

  /** The promise can fail: for every number of whole wraps there is a history at
      whose end an old acknowledgement clears the mark of rows never written. */
  lemma WrappedAcknowledgementLies(wraps: nat) returns (events: seq<Event>, w: World)
    requires wraps > 0
    ensures History(Boot([Row(2, 1)]), events, w) && w.memory.dirty && w.published != []
    ensures w.bumps - w.published[0].bump == wraps * GENERATIONS
    ensures var m := Saved(w.memory, w.published[0].generation);
      Known(m) && !m.dirty && m.rows != w.durable
  {
    var before, coin := UnsavedCoin();
    var n := wraps * GENERATIONS - 1;
    w := RelogsHappen(coin, n);
    events := before + Relogs(n);
    HistoryConcat(Boot([Row(2, 1)]), before, coin, Relogs(n), w);
    assert (w.bumps - w.published[0].bump) % GENERATIONS == 0;
    AcknowledgeIff(w, 0);
  }

  // ---------------------------------------------------------------------
  // Bank sessions
  // ---------------------------------------------------------------------

  /** Frames of one login, with the memory after each. */
  ghost predicate Frames(m: Memory, frames: seq<(Snapshot, Memory)>, unixSecs: u64)
    decreases |frames|
  {
    frames != [] ==>
      && Wellformed(frames[0].0) && IsTracked(m, frames[0].0, unixSecs, frames[0].1)
      && Frames(frames[0].1, frames[1..], unixSecs)
  }

  /** The bank's edges, in order. */
  function Edges(m: Memory, frames: seq<(Snapshot, Memory)>): seq<FrameEvent>
    decreases |frames|
  {
    if frames == [] then []
    else
      var e := EventOf(m, frames[0].0);
      (if e == Opened || e == Closed then [e] else []) + Edges(frames[0].1, frames[1..])
  }

  predicate Alternates(edges: seq<FrameEvent>) {
    forall k :: 0 < k < |edges| ==> edges[k] != edges[k - 1]
  }

  /** Opens and closes alternate: an open comes first exactly when the bank was
      closed, and comes last exactly when it stays open. */
  lemma {:induction false} SessionsAlternate(m: Memory, frames: seq<(Snapshot, Memory)>, unixSecs: u64)
    requires Frames(m, frames, unixSecs)
    ensures var edges, last := Edges(m, frames), if frames == [] then m else frames[|frames| - 1].1;
      && Alternates(edges)
      && (if edges == [] then last.live.Some? == m.live.Some?
          else (edges[0] == Opened <==> m.live.None?) && (edges[|edges| - 1] == Opened <==> last.live.Some?))
    decreases |frames|
  {
    if frames != [] {
      SessionsAlternate(frames[0].1, frames[1..], unixSecs);
      FrameEdge(m, frames[0].0, unixSecs, frames[0].1);
      hide IsTracked, EventOf, Wellformed;
    }
  }

  /** One frame: an open takes a closed bank, a close an open one, and nothing
      else moves it. */
  lemma FrameEdge(m: Memory, s: Snapshot, unixSecs: u64, next: Memory)
    requires Wellformed(s) && IsTracked(m, s, unixSecs, next)
    ensures var e := EventOf(m, s);
      && (e == Opened ==> m.live.None? && next.live.Some?)
      && (e == Closed ==> m.live.Some? && next.live.None?)
      && (e != Opened && e != Closed ==> next.live.Some? == m.live.Some?)
  {
  }
}
