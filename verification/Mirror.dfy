/** The lws-mirror protocol: every message that a session of a mirror instance receives is sent to
    all sessions of the instance, from one bounded ring in which each session has its own tail. */
module Mirror {
  import opened Lists
  import opened LwsRing

  const RXFLOW_MIN := 4
  const QUEUELEN := 32
  const RXFLOW_MAX := 2 * QUEUELEN / 3

  /** per_session_data__lws_mirror */
  class Session {
    /** The index of the next message to send, and its position in the log. */
    var tail: nat
    ghost var pos: nat
    /** Where the oldest tail was at the join, and all that has been sent since. */
    ghost var joined: nat
    ghost var sent: seq<Message>

    constructor ()
    {
      tail, pos, joined, sent := 0, 0, 0, [];
    }
  }

  /** A message that a session received: whether malloc() had memory for it, whether rx was on, and whether
      it came into the ring. */
  datatype Arrival = Arrival(message: Message, haveMemory: bool, rxOn: bool, accepted: bool)

  /** The accepted messages, in the order of their arrival. */
  function Accepted(arrivals: seq<Arrival>): seq<Message>
  {
    if arrivals == [] then [] else
    var last := arrivals[|arrivals| - 1];
    Accepted(arrivals[..|arrivals| - 1]) + if last.accepted then [last.message] else []
  }

  /** The events that the arrivals came from. */
  function Offered(arrivals: seq<Arrival>): seq<Event>
  {
    if arrivals == [] then [] else
    var last := arrivals[|arrivals| - 1];
    Offered(arrivals[..|arrivals| - 1]) + [Arrive(last.message, last.haveMemory)]
  }

  /** The log is what was accepted; and nothing is lost that arrives while rx is on and there is memory. */
  ghost predicate Records(arrivals: seq<Arrival>, log: seq<Message>)
  {
    && log == Accepted(arrivals)
    && forall a <- arrivals :: (a.accepted ==> a.haveMemory) && (a.rxOn && a.haveMemory ==> a.accepted)
  }

  lemma OneMore(arrivals: seq<Arrival>, a: Arrival, log: seq<Message>)
    requires Records(arrivals, log) && (a.accepted ==> a.haveMemory) && (a.rxOn && a.haveMemory ==> a.accepted)
    ensures Records(arrivals + [a], log + if a.accepted then [a.message] else [])
  {
    assert (arrivals + [a])[..|arrivals|] == arrivals;
  }

  lemma OneMoreOffered(arrivals: seq<Arrival>, a: Arrival)
    ensures Offered(arrivals + [a]) == Offered(arrivals) + [Arrive(a.message, a.haveMemory)]
  {
    assert (arrivals + [a])[..|arrivals|] == arrivals;
  }

  /** mirror_instance, with its list of sessions */
  class Instance {
    const ring: Ring
    var sessions: seq<Session>
    var rxEnabled: bool
    /** All that was received so far. */
    ghost var arrivals: seq<Arrival>

    ghost function Footprint(): set<object>
      reads this
    {
      {this, ring, ring.buf} + set s | s in sessions
    }

    /** Every session has sent exactly the log from where it joined up to its tail, and the ring still
        holds all that it has not sent. */
    ghost predicate InOrder(s: Session)
      reads this, ring, ring.buf, s
    {
      && ring.IsTail(s.tail, s.pos)
      && s.joined <= s.pos && s.sent == ring.log[s.joined..s.pos]
    }

    ghost predicate Attached()
      reads this, Footprint()
    {
      && RXFLOW_MAX < ring.buf.Length && ring.Valid()
      && Distinct(sessions)
      && (forall s :: s in sessions ==> InOrder(s))
    }

    ghost predicate Valid()
      reads this, Footprint()
    {
      Attached() && FlowControlled()
    }

    /** Rx is on only while there are RXFLOW_MIN free slots, and off only while there are fewer than
        RXFLOW_MAX. */
    ghost predicate FlowControlled()
      reads this, ring, ring.buf
    {
      if rxEnabled then ring.Free() >= RXFLOW_MIN else ring.Free() < RXFLOW_MAX
    }

    ghost predicate Recorded()
      reads this`arrivals, ring`log
    {
      Records(arrivals, ring.log)
    }

    /** The oldest tail is the minimum of the tails, so that every slot behind it is recycled. */
    ghost predicate Reclaimed()
      reads this, Footprint()
    {
      sessions != [] ==> exists s :: s in sessions && s.pos == ring.oldest
    }

    /** The first session of a name: an empty ring, and rx enabled. */
    constructor (count: nat)
      requires RXFLOW_MAX < count
      ensures Valid() && Reclaimed() && fresh(ring) && fresh(ring.buf)
      ensures ring.log == [] && ring.destroyed == [] && sessions == [] && rxEnabled && ring.buf.Length == count
      ensures arrivals == [] && Recorded()
    {
      ring := new Ring(count);
      sessions, arrivals := [], [];
      rxEnabled := true;
    }

    /** The session with the most unread elements; the last of them in the list if there are several. */
    method FindWorst() returns (found: bool, worst: nat, tail: nat, ghost pos: nat)
      requires Valid()
      ensures found <==> sessions != []
      ensures found ==> ring.IsTail(tail, pos) && worst == |ring.log| - pos
      ensures found ==> exists s :: s in sessions && s.pos == pos && s.tail == tail
      ensures found ==> forall s :: s in sessions ==> pos <= s.pos
    {
      found, worst, tail, pos := false, 0, 0, 0;
      for i := 0 to |sessions|
        invariant found <==> i > 0
        invariant found ==> ring.IsTail(tail, pos) && worst == |ring.log| - pos
        invariant found ==> exists s :: s in sessions && s.pos == pos && s.tail == tail
        invariant found ==> forall j :: 0 <= j < i ==> pos <= sessions[j].pos
        invariant !found ==> worst == 0
      {
        var pss := sessions[i];
        assert pss in sessions && InOrder(pss);
        var waiting := ring.CountWaiting(pss.tail, pss.pos);
        if waiting >= worst {
          found, worst, tail, pos := true, waiting, pss.tail, pss.pos;
        }
      }
    }

    /** __mirror_update_worst_tail(), without the timeouts.  The result tells whether the oldest tail
        moved. */
    method UpdateWorstTail() returns (moved: bool)
      requires Valid()
      modifies this`rxEnabled, ring`oldestTail, ring`oldest, ring`destroyed, ring.buf
      ensures Valid() && Reclaimed() && old(ring.oldest) <= ring.oldest
      ensures sessions == [] ==> ring.oldest == old(ring.oldest)
      ensures moved == (ring.oldest != old(ring.oldest))
      ensures rxEnabled == (old(rxEnabled) || (moved && ring.Free() >= RXFLOW_MAX))
    {
      var oldest := ring.oldestTail;
      var found, worst, worstTail, worstPos := FindWorst();
      if !found {
        return false;
      }
      assert ring.oldest <= worstPos;
      Distance(ring.oldest, worstPos, ring.buf.Length);
      ring.UpdateOldestTail(worstTail, worstPos);
      if oldest == ring.oldestTail {
        return false;
      }
      if !rxEnabled {
        var free := ring.CountFree();
        if free >= RXFLOW_MAX {
          rxEnabled := true;
        }
      }
      return true;
    }

    /** LWS_CALLBACK_ESTABLISHED on an existing instance */
    method Established(pss: Session)
      requires Valid() && Reclaimed() && pss !in sessions
      modifies this`sessions, pss
      ensures Valid() && Reclaimed() && sessions == [pss] + old(sessions)
      ensures pss.joined == pss.pos == ring.oldest && pss.sent == []
    {
      sessions := [pss] + sessions;
      pss.tail := ring.oldestTail;
      pss.pos, pss.joined, pss.sent := ring.oldest, ring.oldest, [];
    }

    /** LWS_CALLBACK_CLOSED.  When the last session leaves, the ring is destroyed. */
    method Closed(pss: Session)
      requires Valid() && pss in sessions
      modifies this`sessions, this`rxEnabled, ring`oldestTail, ring`oldest, ring`destroyed, ring.buf
      ensures sessions == Without(old(sessions), pss)
      ensures sessions != [] ==> Valid() && Reclaimed()
      ensures old(ring.oldest) <= ring.oldest
      ensures ring.Valid() && (sessions == [] ==> ring.destroyed == ring.log)
    {
      hide Without;
      WithoutKeeps(sessions, pss);
      sessions := Without(sessions, pss);  // lws_ll_fwd_remove()
      if sessions != [] {
        var _ := UpdateWorstTail();
      } else {
        ring.Destroy();
      }
    }

    /** LWS_CALLBACK_RECEIVE.  `haveMemory` is the outcome of malloc(). */
    method Receive(message: Message, haveMemory: bool) returns (accepted: bool)
      requires Valid() && Reclaimed() && Recorded() && sessions != []
      modifies this`rxEnabled, this`arrivals, ring`head, ring`log, ring.buf
      ensures Valid() && Reclaimed() && Recorded()
      ensures accepted <==> old(ring.Free()) > 0 && haveMemory
      ensures old(rxEnabled) && haveMemory ==> accepted
      ensures ring.log == if accepted then old(ring.log) + [message] else old(ring.log)
      ensures arrivals == old(arrivals) + [Arrival(message, haveMemory, old(rxEnabled), accepted)]
      ensures rxEnabled == (old(rxEnabled) && ring.Free() >= RXFLOW_MIN)
    {
      hide Records, Accepted;
      ghost var rxOn := rxEnabled;
      accepted := Take(message, haveMemory);
      OneMore(arrivals, Arrival(message, haveMemory, rxOn, accepted), old(ring.log));
      arrivals := arrivals + [Arrival(message, haveMemory, rxOn, accepted)];
    }

    method Take(message: Message, haveMemory: bool) returns (accepted: bool)
      requires Valid() && Reclaimed() && sessions != []
      modifies this`rxEnabled, ring`head, ring`log, ring.buf
      ensures Valid() && Reclaimed()
      ensures accepted <==> old(ring.Free()) > 0 && haveMemory
      ensures old(rxEnabled) && haveMemory ==> accepted
      ensures ring.log == old(ring.log) + if accepted then [message] else []
      ensures rxEnabled == (old(rxEnabled) && ring.Free() >= RXFLOW_MIN)
    {
      var n := ring.CountFree();
      if n == 0 {
        rxEnabled := false;
        return false;
      }
      if !haveMemory {
        return false;
      }
      Insert(message);
      hide Instance.Attached;
      var free := ring.CountFree();
      if rxEnabled && free < RXFLOW_MIN {
        rxEnabled := false;
      }
      return true;
    }

    /** The message comes into the ring; no session notices. */
    method Insert(message: Message)
      requires Attached() && Reclaimed() && ring.Free() > 0
      modifies ring`head, ring`log, ring.buf
      ensures Attached() && Reclaimed() && ring.Valid() && ring.log == old(ring.log) + [message]
    {
      var inserted := ring.Insert(message);
      hide Ring.Valid;
      forall s | s in sessions
        ensures InOrder(s)
      {
        assert old(InOrder(s));
        assert ring.log[s.joined..s.pos] == old(ring.log)[s.joined..s.pos];
      }
    }

    /** The loop of LWS_CALLBACK_SERVER_WRITEABLE.  The pipe is choked after `room` writes, and the
        write with the number `failing` fails.  The first waiting message is written in any case. */
    method SendWaiting(pss: Session, room: nat, failing: Option<nat>) returns (ok: bool, writes: nat)
      requires Valid() && pss in sessions
      modifies pss
      ensures Valid() && pss.joined == old(pss.joined) && old(pss.sent) <= pss.sent
      ensures var waiting := |ring.log| - old(pss.pos);
        && (ok <==> !(failing.Some? && failing.value < Min(waiting, Max(room, 1))))
        && writes == (if ok then Min(waiting, Max(room, 1)) else failing.value)
      ensures pss.pos == old(pss.pos) + writes
    {
      writes := 0;
      var more := true;
      while more
        invariant Valid() && pss.pos == old(pss.pos) + writes
        invariant pss.joined == old(pss.joined) && old(pss.sent) <= pss.sent
        invariant writes <= Min(|ring.log| - old(pss.pos), Max(room, 1))
        invariant more ==> writes == 0 || writes < room
        invariant !more ==> writes == Min(|ring.log| - old(pss.pos), Max(room, 1))
        invariant failing.Some? ==> writes <= failing.value
        decreases more, |ring.log| - pss.pos
      {
        assert InOrder(pss);
        var found, slot := ring.GetElement(pss.tail, pss.pos);
        if !found {
          more := false;
        } else {
          // the payload is never NULL: attached tails are not behind the oldest tail
          if failing == Some(writes) {
            return false, writes;
          }
          Sent(pss, slot.message);
          writes := writes + 1;
          more := writes < room;
        }
      }
      return true, writes;
    }

    /** LWS_CALLBACK_SERVER_WRITEABLE */
    method Writeable(pss: Session, room: nat, failing: Option<nat>) returns (ok: bool)
      requires Valid() && Reclaimed() && pss in sessions
      modifies this`rxEnabled, ring`oldestTail, ring`oldest, ring`destroyed, ring.buf, pss
      ensures Valid() && (ok ==> Reclaimed())
      ensures old(ring.oldest) <= ring.oldest
      ensures pss.joined == old(pss.joined) && old(pss.sent) <= pss.sent
      ensures var waiting := |ring.log| - old(pss.pos);
        && (ok <==> !(failing.Some? && failing.value < Min(waiting, Max(room, 1))))
        && pss.pos == old(pss.pos) + if ok then Min(waiting, Max(room, 1)) else failing.value
      ensures ok && old(pss.pos) < |ring.log| ==> pss.pos > old(pss.pos)
      ensures ok ==> pss.pos == |ring.log| || pss.pos - old(pss.pos) >= room
      ensures rxEnabled == (old(rxEnabled) || (ring.oldest != old(ring.oldest) && ring.Free() >= RXFLOW_MAX))
    {
      assert InOrder(pss);
      var updateWorst := ring.oldestTail == pss.tail;
      Distance(ring.oldest, pss.pos, ring.buf.Length);
      var writes;
      ok, writes := SendWaiting(pss, room, failing);
      if !ok {
        return;
      }
      if writes > 0 && updateWorst {
        var _ := UpdateWorstTail();
      } else {
        assert Reclaimed() by {
          var s :| s in sessions && old(s.pos) == ring.oldest;
          assert s in sessions && s.pos == ring.oldest;
        }
      }
    }

    /** One successful write: the message goes out and the tail moves on. */
    method Sent(pss: Session, message: Message)
      requires Valid() && pss in sessions && pss.pos < |ring.log| && message == ring.log[pss.pos]
      modifies pss
      ensures Valid() && pss.pos == old(pss.pos) + 1 && pss.joined == old(pss.joined)
      ensures pss.sent == old(pss.sent) + [message]
    {
      assert InOrder(pss);
      var next, n := ring.Consume(pss.tail, pss.pos);
      pss.tail := next;
      pss.pos := pss.pos + 1;
      pss.sent := pss.sent + [message];
    }

    /** While rx is off, some session still has something to send: rx cannot stay off for good
        without anybody being able to make room. */
    lemma SomebodyIsBehind()
      requires Valid() && Reclaimed() && sessions != [] && !rxEnabled
      ensures exists s :: s in sessions && s.pos < |ring.log|
    {
      var s :| s in sessions && s.pos == ring.oldest;
      assert s.pos < |ring.log|;
    }

    /** What a callback leaves. */
    twostate predicate After()
      reads this, Footprint()
    {
      && ring.Valid() && old(ring.log) <= ring.log
      && (if sessions == [] then ring.destroyed == ring.log else Valid() && Reclaimed())
      && (forall s :: s in sessions ==> s in old(sessions) || fresh(s))
      && (forall s <- old(sessions) :: s in sessions ==> s.joined == old(s.joined) && old(s.sent) <= s.sent)
    }

    /** One callback on the instance.  A session whose write failed is closed at once. */
    method Step(e: Event)
      requires Valid() && Reclaimed() && Recorded() && sessions != []
      modifies Footprint()
      ensures After() && Recorded()
      ensures !e.Arrive? ==> arrivals == old(arrivals) && ring.log == old(ring.log)
      ensures e.Arrive? ==>
        var accepted := e.haveMemory && old(ring.Free()) > 0;
        && arrivals == old(arrivals) + [Arrival(e.message, e.haveMemory, old(rxEnabled), accepted)]
        && ring.log == if accepted then old(ring.log) + [e.message] else old(ring.log)
      ensures Offered(arrivals) == Offered(old(arrivals)) + if e.Arrive? then [e] else []
    {
      hide Records, Offered;
      match e {
        case Join =>
          Connect();
        case Leave(k) =>
          if k < |sessions| {
            Disconnect(sessions[k]);
          }
        case Arrive(message, haveMemory) =>
          var accepted := Receive(message, haveMemory);
          OneMoreOffered(old(arrivals), Arrival(message, haveMemory, old(rxEnabled), accepted));
        case CanWrite(k, room, failing) =>
          if k < |sessions| {
            WriteOrClose(sessions[k], room, failing);
          }
      }
    }

    method Connect()
      requires Valid() && Reclaimed() && sessions != []
      modifies Footprint()
      ensures After() && arrivals == old(arrivals) && ring.log == old(ring.log)
    {
      var pss := new Session();
      Established(pss);
    }

    method Disconnect(pss: Session)
      requires Valid() && Reclaimed() && pss in sessions
      modifies Footprint()
      ensures After() && arrivals == old(arrivals) && ring.log == old(ring.log)
    {
      WithoutKeeps(sessions, pss);
      Closed(pss);
    }

    method WriteOrClose(pss: Session, room: nat, failing: Option<nat>)
      requires Valid() && Reclaimed() && pss in sessions
      modifies Footprint()
      ensures After() && arrivals == old(arrivals) && ring.log == old(ring.log)
    {
      hide Instance.FlowControlled, Instance.InOrder, Instance.Reclaimed, Ring.Valid;
      var ok := Writeable(pss, room, failing);
      if !ok {
        WithoutKeeps(sessions, pss);
        Closed(pss);
      }
    }
  }

  datatype Event =
    | Join
    | Leave(k: nat)
    | Arrive(message: Message, haveMemory: bool)
    | CanWrite(k: nat, room: nat, failing: Option<nat>)

  /** The arrivals among the events. */
  function Arrivals(events: seq<Event>): seq<Event>
  {
    if events == [] then [] else
    var last := events[|events| - 1];
    Arrivals(events[..|events| - 1]) + if last.Arrive? then [last] else []
  }

  function Messages(events: seq<Event>): seq<Message>
  {
    if events == [] then [] else
    var last := events[|events| - 1];
    Messages(events[..|events| - 1]) + if last.Arrive? then [last.message] else []
  }

  lemma OneMoreEvent(events: seq<Event>, done: nat)
    requires done < |events|
    ensures Arrivals(events[..done + 1]) ==
      Arrivals(events[..done]) + if events[done].Arrive? then [events[done]] else []
  {
    assert events[..done + 1][..done] == events[..done];
  }

  /** Rx was on and memory was left at each arrival. */
  ghost predicate Unhindered(arrivals: seq<Arrival>)
  {
    forall a <- arrivals :: a.rxOn && a.haveMemory
  }

  /** Then they are all in the log. */
  lemma {:induction false} NothingLost(arrivals: seq<Arrival>, log: seq<Message>)
    requires Records(arrivals, log) && Unhindered(arrivals)
    ensures log == Messages(Offered(arrivals))
  {
    if arrivals != [] {
      var front, offers := arrivals[..|arrivals| - 1], Offered(arrivals);
      NothingLost(front, Accepted(front));
      assert offers[..|offers| - 1] == Offered(front);
    }
  }

  /** A whole run of an instance, from its creation by the first session until the last one leaves or
      the events end: at the end everything above holds, so in particular each session has sent
      the accepted messages without gap, in order and once each.  The log is what was accepted of the
      arrivals among the events; and that is all of them, if rx was on and memory was left at each. */
  method Run(count: nat, events: seq<Event>) returns (mi: Instance, done: nat)
    requires RXFLOW_MAX < count
    ensures done <= |events| && mi.ring.Valid()
    ensures mi.sessions != [] ==> done == |events| && mi.Valid() && mi.Reclaimed()
    ensures mi.sessions == [] ==> mi.ring.destroyed == mi.ring.log
    ensures mi.Recorded() && Offered(mi.arrivals) == Arrivals(events[..done])
    ensures Unhindered(mi.arrivals) ==> mi.ring.log == Messages(Arrivals(events[..done]))
  {
    hide Instance.FlowControlled, Instance.InOrder, Instance.Reclaimed, Ring.Valid;
    hide Records, Offered, Arrivals, Messages, Unhindered;
    mi := new Instance(count);
    NoEvents(events);
    var first := new Session();
    mi.Established(first);
    done := 0;
    while done < |events| && mi.sessions != []
      invariant done <= |events| && mi.ring.Valid()
      invariant fresh(mi.Footprint())
      invariant mi.sessions != [] ==> mi.Valid() && mi.Reclaimed()
      invariant mi.sessions == [] ==> mi.ring.destroyed == mi.ring.log
      invariant mi.Recorded() && Offered(mi.arrivals) == Arrivals(events[..done])
    {
      OneMoreEvent(events, done);
      mi.Step(events[done]);
      done := done + 1;
    }
    if Unhindered(mi.arrivals) {
      NothingLost(mi.arrivals, mi.ring.log);
    }
  }

  /** Everything that was accepted has been sent to every session and is recycled, and rx is on. */
  ghost predicate Drained(mi: Instance)
    reads mi, mi.Footprint()
  {
    && mi.Valid() && mi.rxEnabled && mi.ring.oldest == |mi.ring.log| && mi.ring.destroyed == mi.ring.log
    && forall s :: s in mi.sessions ==> s.pos == |mi.ring.log| && s.sent == mi.ring.log[s.joined..]
  }

  lemma AllSent(mi: Instance)
    requires mi.Valid() && mi.Reclaimed() && mi.sessions != []
    requires forall i :: 0 <= i < |mi.sessions| ==> mi.sessions[i].pos == |mi.ring.log|
    ensures Drained(mi)
  {
    forall s | s in mi.sessions
      ensures s.sent == mi.ring.log[s.joined..]
    {
      assert mi.InOrder(s);
    }
  }

  /** Nobody joins, leaves or receives. */
  twostate predicate Quiet(mi: Instance)
    reads mi, mi.ring
  {
    mi.sessions == old(mi.sessions) && mi.ring.log == old(mi.ring.log)
  }

  /** A successful LWS_CALLBACK_SERVER_WRITEABLE. */
  method Visit(mi: Instance, k: nat, room: nat)
    requires mi.Valid() && mi.Reclaimed() && k < |mi.sessions|
    modifies mi, mi.ring, mi.ring.buf, mi.sessions
    ensures mi.Valid() && mi.Reclaimed() && Quiet(mi)
    ensures var s := mi.sessions[k]; s.pos == Min(|mi.ring.log|, old(s.pos) + Max(room, 1))
    ensures forall i :: 0 <= i < |mi.sessions| && i != k ==> mi.sessions[i].pos == old(mi.sessions[i].pos)
  {
    assert mi.InOrder(mi.sessions[k]);
    hide Instance.Reclaimed, Ring.Valid;
    var ok := mi.Writeable(mi.sessions[k], room, None);
  }

  /** Without further arrivals: once each session had a successful callback with room for all that it had
      waiting, in any order and as often as one likes, everything is sent. */
  method Drain(mi: Instance, order: seq<nat>, rooms: seq<nat>)
    requires mi.Valid() && mi.Reclaimed() && mi.sessions != [] && |order| == |rooms|
    requires forall k :: 0 <= k < |order| ==> order[k] < |mi.sessions|
    requires forall k :: 0 <= k < |order| ==> rooms[k] >= |mi.ring.log| - mi.sessions[order[k]].pos
    requires forall i :: 0 <= i < |mi.sessions| ==> i in order
    modifies mi, mi.ring, mi.ring.buf, mi.sessions
    ensures Drained(mi) && Quiet(mi)
  {
    PositionsAreInLog(mi);
    hide Instance.Valid, Instance.Reclaimed, Drained;
    for k := 0 to |order|
      invariant mi.Valid() && mi.Reclaimed() && Quiet(mi)
      invariant forall i :: 0 <= i < |mi.sessions| ==> old(mi.sessions[i].pos) <= mi.sessions[i].pos <= |mi.ring.log|
      invariant forall j :: 0 <= j < k ==> mi.sessions[order[j]].pos == |mi.ring.log|
    {
      Visit(mi, order[k], rooms[k]);
    }
    forall i | 0 <= i < |mi.sessions|
      ensures mi.sessions[i].pos == |mi.ring.log|
    {
      assert i in order;
    }
    AllSent(mi);
  }

  lemma PositionsAreInLog(mi: Instance)
    requires mi.Valid()
    ensures forall i :: 0 <= i < |mi.sessions| ==> mi.sessions[i].pos <= |mi.ring.log|
  {
    forall i | 0 <= i < |mi.sessions|
      ensures mi.sessions[i].pos <= |mi.ring.log|
    {
      assert mi.InOrder(mi.sessions[i]);
    }
  }

  /** No session has more than this many messages to send. */
  ghost predicate Backlog(mi: Instance, most: nat)
    reads mi, mi.ring, mi.sessions
  {
    forall i :: 0 <= i < |mi.sessions| ==> 0 <= |mi.ring.log| - mi.sessions[i].pos <= most
  }

  /** One callback for each session, with any room. */
  method Round(mi: Instance, most: nat, room: nat -> nat)
    requires mi.Valid() && mi.Reclaimed() && Backlog(mi, most + 1)
    modifies mi, mi.ring, mi.ring.buf, mi.sessions
    ensures mi.Valid() && mi.Reclaimed() && Quiet(mi) && Backlog(mi, most)
  {
    hide Instance.Valid, Instance.Reclaimed;
    for k := 0 to |mi.sessions|
      invariant mi.Valid() && mi.Reclaimed() && Quiet(mi)
      invariant forall i :: 0 <= i < |mi.sessions| ==>
        0 <= |mi.ring.log| - mi.sessions[i].pos <= if i < k then most else most + 1
    {
      Visit(mi, k, room(k));
    }
  }

  /** And if the pipes are choked after every write: as many rounds through the sessions as the longest
      backlog has messages are enough, whatever the room is. */
  method DrainChoked(mi: Instance, most: nat, room: (nat, nat) -> nat)
    requires mi.Valid() && mi.Reclaimed() && mi.sessions != [] && Backlog(mi, most)
    modifies mi, mi.ring, mi.ring.buf, mi.sessions
    ensures Drained(mi) && Quiet(mi)
  {
    hide Instance.Valid, Instance.Reclaimed, Drained;
    for r := 0 to most
      invariant mi.Valid() && mi.Reclaimed() && Quiet(mi) && Backlog(mi, most - r)
    {
      Round(mi, most - r - 1, k => room(r, k));
    }
    AllSent(mi);
  }

  lemma NoEvents(events: seq<Event>)
    ensures Offered([]) == Arrivals(events[..0]) == []
  {}
}
