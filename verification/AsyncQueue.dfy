/** The bounded event queue (queue.c): what one thread does while it holds the mutex.
    The waiting and signalling between threads is the subject of QueueProtocol. */
module AsyncQueue {
  import opened CStrings
  import opened Event

  const QUEUE_DEFAULT_SIZE: nat := 4096

  /** The queue as its users see it. */
  datatype QueueState = QueueState(items: seq<Event>, size: nat, shutdown: bool)

  predicate Full(q: QueueState) { |q.items| >= q.size }

  /** `queue_push` once its wait loop has ended: a refusal or an append. */
  function AfterPush(q: QueueState, ev: Event): (int, QueueState)
  {
    if q.shutdown then (-1, q) else (0, q.(items := q.items + [ev]))
  }

  /** `queue_pop` once its single wait is over: a refusal or the oldest event. */
  function AfterPop(q: QueueState): (int, Option<Event>, QueueState)
  {
    if q.items == [] || q.shutdown then (-1, None, q)
    else (0, Some(q.items[0]), q.(items := q.items[1..]))
  }

  /** Index arithmetic of the ring: one wrap at most. */
  lemma Wrap(i: nat, size: nat)
    requires 0 < size && i < 2 * size
    ensures i % size == if i < size then i else i - size
  {
    var d := i / size;
    assert i == size * d + i % size;
    if d >= 2 {
      MulAtLeast(size, d);
    }
  }

  lemma {:induction false} MulAtLeast(size: nat, d: nat)
    requires d >= 2
    ensures size * d >= 2 * size
  {
    assert size * d == 2 * size + size * (d - 2);
  }

  /** The `count` events from index `head` on, around the end of the buffer. */
  function Ring(b: seq<Event>, head: nat, count: nat): (r: seq<Event>)
    requires head < |b| && count <= |b|
    ensures |r| == count
  {
    if head + count <= |b| then b[head..head + count] else b[head..] + b[..head + count - |b|]
  }

  lemma RingPush(b: seq<Event>, head: nat, count: nat, ev: Event)
    requires head < |b| && count < |b|
    ensures Ring(b[(head + count) % |b| := ev], head, count + 1) == Ring(b, head, count) + [ev]
  {
    var n := |b|;
    Wrap(head + count, n);
    var tail := (head + count) % n;
    var b' := b[tail := ev];
    if head + count < n {
      assert b'[head..tail] == b[head..tail];
    } else {
      assert b'[head..] == b[head..] && b'[..tail] == b[..tail];
      assert b'[..tail + 1] == b[..tail] + [ev];
      assert head + count + 1 > n;
    }
  }

  lemma RingPop(b: seq<Event>, head: nat, count: nat)
    requires head < |b| && 0 < count <= |b|
    ensures Ring(b, head, count)[0] == b[head]
    ensures Ring(b, (head + 1) % |b|, count - 1) == Ring(b, head, count)[1..]
  {
    var n := |b|;
    Wrap(head + 1, n);
    if head + 1 == n {
      assert b[head..] == [b[head]];
    } else if head + count <= n {
      assert b[head..head + count][1..] == b[head + 1..head + count];
    } else {
      assert b[head..][1..] == b[head + 1..];
      assert (b[head..] + b[..head + count - n])[1..] == b[head..][1..] + b[..head + count - n];
    }
  }

  class Queue {
    const buffer: array<Event>
    var head: nat
    var tail: nat
    const size: nat
    var count: nat
    var shutdown: bool

    ghost predicate Valid()
      reads this
    {
      && 0 < size == buffer.Length
      && head < size && count <= size
      && tail == (head + count) % size
    }

    /** The queued events, oldest first, across the wrap-around. */
    function Items(): (r: seq<Event>)
      requires Valid()
      reads this, buffer
      ensures |r| == count
    {
      Ring(buffer[..], head, count)
    }

    function View(): QueueState
      requires Valid()
      reads this, buffer
    {
      QueueState(Items(), size, shutdown)
    }

    /** `queue_init`: a size that is not positive means the default. */
    constructor (wanted: int)
      ensures Valid() && fresh(buffer)
      ensures View() == QueueState([], if wanted <= 0 then 4096 else wanted, false)
    {
      var n := if wanted <= 0 then QUEUE_DEFAULT_SIZE else wanted;
      buffer := new Event[n](_ => ZERO_EVENT);
      size := n;
      head, tail, count, shutdown := 0, 0, 0, false;
      new;
      Wrap(0, n);
    }

    /** Lines 43-55: reached with the mutex held and the loop condition false. */
    method PushLocked(ev: Event) returns (rc: int)
      requires Valid()
      requires count < size || shutdown
      modifies this, buffer
      ensures Valid()
      ensures (rc, View()) == AfterPush(old(View()), ev)
      ensures rc == if old(shutdown) then -1 else 0
      ensures Items() == if old(shutdown) then old(Items()) else old(Items()) + [ev]
      ensures shutdown == old(shutdown)
    {
      if shutdown {
        return -1;
      }
      ghost var was := buffer[..];
      RingPush(was, head, count, ev);
      NextTail();
      buffer[tail] := ev;
      assert buffer[..] == was[tail := ev];
      tail := (tail + 1) % size;
      count := count + 1;
      return 0;
    }

    lemma NextTail()
      requires Valid() && count < size
      ensures (tail + 1) % size == (head + count + 1) % size
      ensures tail < size
    {
      Wrap(head + count, size);
      Wrap(head + count + 1, size);
      Wrap(tail + 1, size);
    }

    lemma NextHead()
      requires Valid() && count > 0
      ensures tail == ((head + 1) % size + (count - 1)) % size
      ensures (head + 1) % size < size
    {
      Wrap(head + 1, size);
      Wrap(head + count, size);
      Wrap((head + 1) % size + (count - 1), size);
    }

    /** Lines 78-90: reached with the mutex held, after at most one wait. */
    method PopLocked() returns (rc: int, ev: Option<Event>)
      requires Valid()
      modifies this
      ensures Valid()
      ensures (rc, ev, View()) == AfterPop(old(View()))
      ensures old(count) == 0 || old(shutdown) ==> rc == -1 && ev == None && Items() == old(Items())
      ensures old(count) > 0 && !old(shutdown) ==> rc == 0 && ev.Some? && [ev.value] + Items() == old(Items())
      ensures shutdown == old(shutdown)
    {
      if count == 0 || shutdown {
        return -1, None;
      }
      RingPop(buffer[..], head, count);
      NextHead();
      ev := Some(buffer[head]);
      head := (head + 1) % size;
      count := count - 1;
      rc := 0;
    }

    method ShutdownLocked()
      requires Valid()
      modifies `shutdown
      ensures Valid() && View() == old(View()).(shutdown := true)
    {
      shutdown := true;
    }

    method CountLocked() returns (c: nat)
      requires Valid()
      ensures c == |View().items|
    {
      c := count;
    }
  }

  // --- the deadline of a timed wait ---------------------------------------------------

  const NANOS: nat := 1_000_000_000

  /** Lines 66-71: the absolute deadline `timeout_ms` after the time of day. */
  method Deadline(tv_sec: nat, tv_usec: nat, timeout_ms: nat) returns (sec: nat, nsec: nat)
    requires tv_usec < 1_000_000 && 0 < timeout_ms
    ensures nsec < NANOS
    ensures sec * NANOS + nsec == tv_sec * NANOS + tv_usec * 1000 + timeout_ms * 1_000_000
  {
    sec := tv_sec + timeout_ms / 1000;
    nsec := (tv_usec + timeout_ms % 1000 * 1000) * 1000;
    if nsec >= NANOS {
      sec := sec + 1;
      nsec := nsec - NANOS;
    }
  }
}
