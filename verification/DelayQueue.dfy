// One direction's queue of the delay proxy: chunks wait in order until their
// release time. The class is proved against operations on its state as a value,
// which the protocol proof then interleaves.
module DelayQueue {

  type Bytes = seq<bv8>

  datatype Chunk = Chunk(release: int, arrival: int, data: Bytes)

  datatype Queue = Queue(maxBytes: nat, items: seq<Chunk>, bytes: nat, highWater: nat, eof: bool, aborted: bool)

  /** What one look at the queue gives its sender. */
  datatype Poll = Wait | Ended | Popped(arrival: int, data: Bytes)

  function Size(items: seq<Chunk>): nat {
    if items == [] then 0 else |items[0].data| + Size(items[1..])
  }

  function Content(items: seq<Chunk>): Bytes {
    if items == [] then [] else items[0].data + Content(items[1..])
  }

  /** The byte count is the queued bytes; it never passed the high water, nor that the bound. */
  predicate Sound(q: Queue) {
    q.bytes == Size(q.items) && q.bytes <= q.highWater <= q.maxBytes && (q.aborted ==> q.items == [])
  }

  function Empty(maxBytes: nat): Queue {
    Queue(maxBytes, [], 0, 0, false, false)
  }

  predicate Accepts(q: Queue, data: Bytes) {
    !q.aborted && !q.eof && q.bytes + |data| <= q.maxBytes
  }

  function Pushed(q: Queue, arrival: int, release: int, data: Bytes): Queue {
    if Accepts(q, data) then
      var bytes := q.bytes + |data|;
      q.(items := q.items + [Chunk(release, arrival, data)], bytes := bytes,
         highWater := if bytes > q.highWater then bytes else q.highWater)
    else q
  }

  function Aborted(q: Queue): Queue {
    q.(aborted := true, items := [], bytes := 0)
  }

  function Look(q: Queue, now: int): Poll {
    if q.aborted then Ended
    else if q.items != [] then
      if q.items[0].release <= now then Popped(q.items[0].arrival, q.items[0].data) else Wait
    else if q.eof then Ended
    else Wait
  }

  function Left(q: Queue, now: int): Queue
    requires Sound(q)
  {
    if Look(q, now).Popped? then q.(items := q.items[1..], bytes := q.bytes - |q.items[0].data|) else q
  }

  lemma {:induction false} ContentAppend(items: seq<Chunk>, chunk: Chunk)
    ensures Content(items + [chunk]) == Content(items) + chunk.data
    ensures Size(items + [chunk]) == Size(items) + |chunk.data|
  {
    if items != [] {
      ContentAppend(items[1..], chunk);
      assert (items + [chunk])[1..] == items[1..] + [chunk];
    } else {
      assert ([] + [chunk])[1..] == [];
    }
  }

  lemma PushSound(q: Queue, arrival: int, release: int, data: Bytes)
    requires Sound(q)
    ensures Sound(Pushed(q, arrival, release, data))
    ensures Accepts(q, data) ==> Content(Pushed(q, arrival, release, data).items) == Content(q.items) + data
  {
    ContentAppend(q.items, Chunk(release, arrival, data));
  }

  class DirectionQueue {
    const maxBytes: nat
    var items: seq<Chunk>
    var bytes: nat
    var highWater: nat
    var eof: bool
    var aborted: bool

    ghost function State(): Queue
      reads this
    {
      Queue(maxBytes, items, bytes, highWater, eof, aborted)
    }

    ghost predicate Valid()
      reads this
    {
      Sound(State())
    }

    constructor (maxBytes: nat)
      ensures Valid() && State() == Empty(maxBytes)
    {
      this.maxBytes := maxBytes;
      items, bytes, highWater := [], 0, 0;
      eof, aborted := false, false;
    }

    /** False on overflow or after close; the queue is then unchanged. */
    method Push(arrival: int, release: int, data: Bytes) returns (ok: bool)
      requires Valid()
      modifies this
      ensures Valid()
      ensures ok <==> !old(aborted) && !old(eof) && old(bytes) + |data| <= maxBytes
      ensures items == if ok then old(items) + [Chunk(release, arrival, data)] else old(items)
      ensures bytes == old(bytes) + if ok then |data| else 0
      ensures old(highWater) <= highWater && (highWater == old(highWater) || highWater == bytes)
      ensures eof == old(eof) && aborted == old(aborted)
      ensures State() == Pushed(old(State()), arrival, release, data)
    {
      PushSound(State(), arrival, release, data);
      if aborted || eof {
        return false;
      }
      if bytes + |data| > maxBytes {
        return false;
      }
      items := items + [Chunk(release, arrival, data)];
      bytes := bytes + |data|;
      highWater := if bytes > highWater then bytes else highWater;
      return true;
    }

    method Finish()
      requires Valid()
      modifies this
      ensures Valid() && State() == old(State()).(eof := true)
      ensures eof && items == old(items) && aborted == old(aborted)
    {
      eof := true;
    }

    method Abort()
      requires Valid()
      modifies this
      ensures Valid() && State() == Aborted(old(State()))
      ensures aborted && items == [] && bytes == 0 && eof == old(eof) && highWater == old(highWater)
    {
      aborted := true;
      items := [];
      bytes := 0;
    }

    /** One turn of the `pop_wait` loop at time `now`; `Wait` stands for another turn.
        A chunk whose time has passed is given up at once, and only a head that is
        not yet due, or an open queue with nothing in it, makes the sender wait. */
    method PopTurn(now: int) returns (poll: Poll)
      requires Valid()
      modifies this
      ensures Valid()
      ensures poll.Ended? <==> old(aborted) || (old(items) == [] && old(eof))
      ensures poll.Popped? <==> !old(aborted) && old(items) != [] && old(items)[0].release <= now
      ensures poll.Wait? <==>
        !old(aborted) && if old(items) == [] then !old(eof) else now < old(items)[0].release
      ensures poll.Popped? ==>
        poll == Popped(old(items)[0].arrival, old(items)[0].data) && items == old(items)[1..]
      ensures !poll.Popped? ==> items == old(items)
      ensures eof == old(eof) && aborted == old(aborted) && highWater == old(highWater)
      ensures poll == Look(old(State()), now) && State() == Left(old(State()), now)
    {
      if aborted {
        return Ended;
      }
      if items != [] {
        var head := items[0];
        var wait := head.release - now;
        if wait <= 0 {
          items := items[1..];
          bytes := bytes - |head.data|;
          return Popped(head.arrival, head.data);
        }
        return Wait;
      } else if eof {
        return Ended;
      }
      return Wait;
    }
  }
}
