/** The multi-tail ring buffer of libwebsockets, with elements in place of bytes. */
module LwsRing {

  type Message = string

  /** An element of the ring: a message whose payload was freed, or one that still has it. */
  datatype Slot = Freed | Held(message: Message)

  // ---------- modular positions ----------

  lemma TimesAtLeast(k: int, n: nat)
    ensures k >= 1 ==> k * n >= n
    ensures k <= -1 ==> k * n <= 0 - n
  {}

  lemma Quotient(q: int, r: nat, a: int, b: nat, n: nat)
    requires r < n && b < n && q * n + r == a * n + b
    ensures r == b
  {
    TimesAtLeast(a - q, n);
    assert (a - q) * n == a * n - q * n;
  }

  lemma ModOfSum(q: nat, r: nat, n: nat)
    requires r < n
    ensures (q * n + r) % n == r
  {
    var x := q * n + r;
    assert x == x / n * n + x % n;
    Quotient(q, r, x / n, x % n, n);
  }

  lemma Parts(t: nat, n: nat)
    requires 0 < n
    ensures t == t / n * n + t % n && t % n < n
  {}

  /** The index of a position that is less than a ring further on. */
  lemma IndexFurther(q: nat, r: nat, d: nat, n: nat)
    requires r < n && d < n
    ensures (q * n + r + d) % n == if r + d < n then r + d else r + d - n
  {
    if r + d < n {
      ModOfSum(q, r + d, n);
    } else {
      assert (q + 1) * n == q * n + n;
      ModOfSum(q + 1, r + d - n, n);
    }
  }

  /** How far apart two positions are can be read from their indices in the ring. */
  lemma Distance(t: nat, h: nat, n: nat)
    requires 0 < n && t <= h < t + n
    ensures h % n >= t % n ==> h - t == h % n - t % n
    ensures h % n < t % n ==> h - t == n - t % n + h % n
  {
    Parts(t, n);
    IndexFurther(t / n, t % n, h - t, n);
  }

  lemma Next(t: nat, n: nat)
    requires 1 < n
    ensures (t % n + 1) % n == (t + 1) % n
  {
    Distance(t, t + 1, n);
    if t % n + 1 < n {
      ModOfSum(0, t % n + 1, n);
    } else {
      ModOfSum(1, 0, n);
    }
  }

  lemma SameSlot(t: nat, u: nat, n: nat)
    requires 0 < n && t < u < t + n
    ensures t % n != u % n
  {
    Distance(t, u, n);
  }

  class Ring {
    const buf: array<Slot>
    var head: nat
    var oldestTail: nat

    /** Every message ever inserted; the messages that destroy_element was called on, in order; and
        the position in the log of the oldest message that is still held. */
    ghost var log: seq<Message>
    ghost var destroyed: seq<Message>
    ghost var oldest: nat

    ghost predicate Valid()
      reads this, buf
    {
      && 1 < buf.Length
      && oldest <= |log| < oldest + buf.Length
      && head == |log| % buf.Length && oldestTail == oldest % buf.Length
      && destroyed == log[..oldest]
      && forall t {:trigger log[t]} :: oldest <= t < |log| ==> buf[t % buf.Length] == Held(log[t])
    }

    /** `tail` is the index of position t. */
    ghost predicate IsTail(tail: nat, t: nat)
      reads this, buf
    {
      oldest <= t <= |log| && buf.Length > 0 && tail == t % buf.Length
    }

    ghost function Free(): int
      reads this
    {
      buf.Length - 1 - (|log| - oldest)
    }

    /** lws_ring_create() */
    constructor (count: nat)
      requires 1 < count
      ensures Valid() && fresh(buf) && buf.Length == count
      ensures log == [] && destroyed == [] && oldest == 0
    {
      buf := new Slot[count](_ => Freed);
      head, oldestTail := 0, 0;
      log, destroyed, oldest := [], [], 0;
    }

    /** lws_ring_get_count_free_elements() */
    method CountFree() returns (n: nat)
      requires Valid()
      ensures n == Free()
    {
      Distance(oldest, |log|, buf.Length);
      if head == oldestTail {
        n := buf.Length - 1;
      } else if head < oldestTail {
        n := oldestTail - head - 1;
      } else {
        n := buf.Length - head + oldestTail - 1;
      }
    }

    /** lws_ring_get_count_waiting_elements() */
    method CountWaiting(tail: nat, ghost t: nat) returns (n: nat)
      requires Valid() && IsTail(tail, t)
      ensures n == |log| - t
    {
      Distance(t, |log|, buf.Length);
      if head == tail {
        n := 0;
      } else if head > tail {
        n := head - tail;
      } else {
        n := buf.Length - tail + head;
      }
    }

    /** lws_ring_insert() of one element */
    method Insert(message: Message) returns (n: nat)
      requires Valid()
      modifies this`head, this`log, buf
      ensures Valid()
      ensures n == if old(Free()) > 0 then 1 else 0
      ensures log == if n == 1 then old(log) + [message] else old(log)
    {
      var free := CountFree();
      if free == 0 {
        return 0;
      }
      forall t {:trigger log[t]} | oldest <= t < |log|
        ensures t % buf.Length != head
      {
        SameSlot(t, |log|, buf.Length);
      }
      Next(|log|, buf.Length);
      buf[head] := Held(message);
      head := (head + 1) % buf.Length;
      log := log + [message];
      return 1;
    }

    /** lws_ring_get_element() */
    method GetElement(tail: nat, ghost t: nat) returns (found: bool, slot: Slot)
      requires Valid() && IsTail(tail, t)
      ensures found <==> t < |log|
      ensures found ==> slot == Held(log[t])
    {
      Distance(t, |log|, buf.Length);
      if tail == head {
        return false, Freed;
      }
      return true, buf[tail];
    }

    /** lws_ring_consume() of one element, without copying it out */
    method Consume(tail: nat, ghost t: nat) returns (next: nat, n: nat)
      requires Valid() && IsTail(tail, t)
      ensures n == if t < |log| then 1 else 0
      ensures IsTail(next, t + n)
    {
      var waiting := CountWaiting(tail, t);
      if waiting == 0 {
        return tail, 0;
      }
      Next(t, buf.Length);
      return (tail + 1) % buf.Length, 1;
    }

    /** Call destroy_element on the oldest element and recycle its slot. */
    method DestroyOldest()
      requires Valid() && oldest < |log|
      modifies this`oldestTail, this`oldest, this`destroyed, buf
      ensures Valid() && oldest == old(oldest) + 1
    {
      forall u {:trigger log[u]} | oldest < u < |log|
        ensures u % buf.Length != oldestTail
      {
        SameSlot(oldest, u, buf.Length);
      }
      Next(oldest, buf.Length);
      buf[oldestTail] := Freed;
      oldestTail := (oldestTail + 1) % buf.Length;
      destroyed := destroyed + [log[oldest]];
      oldest := oldest + 1;
    }

    /** lws_ring_update_oldest_tail(): destroys the elements up to the given tail. */
    method UpdateOldestTail(tail: nat, ghost t: nat)
      requires Valid() && IsTail(tail, t)
      modifies this`oldestTail, this`oldest, this`destroyed, buf
      ensures Valid() && oldest == t && oldestTail == tail
    {
      Distance(oldest, t, buf.Length);
      while oldestTail != tail
        invariant Valid() && old(oldest) <= oldest <= t
        invariant oldestTail == tail <==> oldest == t
        decreases t - oldest
      {
        DestroyOldest();
        Distance(oldest, t, buf.Length);
      }
    }

    /** lws_ring_destroy() */
    method Destroy()
      requires Valid()
      modifies this`oldestTail, this`oldest, this`destroyed, buf
      ensures Valid() && oldest == |log| && destroyed == log
    {
      UpdateOldestTail(head, |log|);
    }
  }
}
