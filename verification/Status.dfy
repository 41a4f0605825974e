/** The lws-status protocol: every session is told which sessions are live, in messages of several
    fragments, while sessions come and go. */
module Status {
  import opened Lists

  datatype Walk = WalkNone | WalkInitial | WalkList | WalkFinal

  /** A frame handed to lws_write(): its opcode and FIN bit, and the session it lists, if any. */
  datatype Frame = Frame(text: bool, fin: bool, entry: Pss?)

  /** Whether a run of frames ends inside a message; None if it breaks section 5.4 of RFC 6455, where
      a fragmented message is a TEXT frame without FIN, CONTINUATION frames without FIN, and a
      CONTINUATION frame with FIN. */
  datatype Framing = Broken | Between | Inside

  function FramingOf(frames: seq<Frame>): Framing
  {
    if frames == [] then Between else
    var f := frames[|frames| - 1];
    match FramingOf(frames[..|frames| - 1])
    case Broken => Broken
    case Between => if f.text && !f.fin then Inside else Broken
    case Inside => if f.text then Broken else if f.fin then Between else Inside
  }

  /** The sessions listed since the last message was begun. */
  function Listed(frames: seq<Frame>): seq<Pss>
  {
    if frames == [] then [] else
    var f := frames[|frames| - 1];
    if f.text then [] else
    Listed(frames[..|frames| - 1]) + if f.entry == null then [] else [f.entry]
  }

  lemma AddFrame(frames: seq<Frame>, f: Frame)
    ensures FramingOf(frames + [f]) ==
      match FramingOf(frames)
      case Broken => Broken
      case Between => if f.text && !f.fin then Inside else Broken
      case Inside => if f.text then Broken else if f.fin then Between else Inside
    ensures Listed(frames + [f]) ==
      if f.text then [] else Listed(frames) + if f.entry == null then [] else [f.entry]
  {
    assert (frames + [f])[..|frames|] == frames;
  }

  /** per_session_data__lws_status */
  class Pss {
    var walk: Walk
    var walkNext: Pss?
    var subsequent: bool
    var changedPartway: bool
    ghost var frames: seq<Frame>

    constructor ()
    {
      walk, walkNext, subsequent, changedPartway, frames := WalkNone, null, false, false, [];
    }
  }

  /** per_vhost_data__lws_status */
  class Vhd {
    var livePssList: seq<Pss>

    constructor ()
      ensures Valid() && livePssList == []
    {
      livePssList := [];
    }

    /** The frames of a session agree with where its walk is; and as long as nothing changed on the
        way, what it has listed is what comes before its next entry in the live list. */
    ghost predicate Consistent(s: Pss)
      reads this, s
    {
      var listed := Listed(s.frames);
      && FramingOf(s.frames) == (if s.walk.WalkNone? || s.walk.WalkInitial? then Between else Inside)
      && (s.walk.WalkNone? ==> !s.changedPartway)
      && (s.changedPartway || s.walk.WalkInitial? ||
          if s.walk.WalkList?
          then |listed| < |livePssList| && listed == livePssList[..|listed|] && s.walkNext == livePssList[|listed|]
          else listed == livePssList)
    }

    ghost predicate Valid()
      reads this, set s | s in livePssList
    {
      Distinct(livePssList) && forall s :: s in livePssList ==> Consistent(s)
    }

    function Head(): Pss?
      reads this
    {
      if livePssList == [] then null else livePssList[0]
    }

    /** trigger_resend() */
    method TriggerResend()
      requires Distinct(livePssList)
      modifies set s | s in livePssList
      ensures forall s :: s in livePssList ==> Retriggered(s)
    {
      for i := 0 to |livePssList|
        invariant forall j :: 0 <= j < i ==> Retriggered(livePssList[j])
        invariant forall j :: i <= j < |livePssList| ==> unchanged(livePssList[j])
      {
        var pss := livePssList[i];
        if pss.walk.WalkNone? {
          pss.subsequent := false;
          pss.walkNext := Head();
          pss.walk := WalkInitial;
        } else {
          pss.changedPartway := true;
        }
      }
    }

    twostate predicate Retriggered(s: Pss)
      reads this, s
    {
      && s.frames == old(s.frames)
      && (if old(s.walk.WalkNone?) then s.walk.WalkInitial? && s.changedPartway == old(s.changedPartway)
          else s.walk == old(s.walk) && s.changedPartway)
    }

    /** LWS_CALLBACK_ESTABLISHED, for a session whose data lws has just zeroed.  It may be at the
        address of a session that left. */
    method Established(pss: Pss)
      requires Valid() && pss !in livePssList
      modifies this, pss, set s | s in livePssList
      ensures Valid() && livePssList == [pss] + old(livePssList)
      ensures forall s :: s in livePssList ==> !s.walk.WalkNone?
      ensures pss.frames == []
      ensures forall s <- old(livePssList) :: s.frames == old(s.frames)
    {
      pss.walk, pss.walkNext, pss.subsequent, pss.changedPartway, pss.frames := WalkNone, null, false, false, [];
      livePssList := [pss] + livePssList;
      TriggerResend();
    }

    /** LWS_CALLBACK_CLOSED */
    method Closed(pss: Pss)
      requires Valid() && pss in livePssList
      modifies this, set s | s in livePssList
      ensures Valid() && livePssList == Without(old(livePssList), pss)
      ensures forall s :: s in livePssList ==> !s.walk.WalkNone?
      ensures forall s <- old(livePssList) :: s.frames == old(s.frames)
    {
      WithoutKeeps(livePssList, pss);
      var ppss := 0;
      while livePssList[ppss] != pss
        invariant ppss < |livePssList| && pss in livePssList[ppss..] && pss !in livePssList[..ppss]
        decreases |livePssList| - ppss
      {
        ppss := ppss + 1;
      }
      WithoutFrom(livePssList, pss, ppss);
      livePssList := livePssList[..ppss] + livePssList[ppss + 1..];
      TriggerResend();
    }

    /** The search for walk_next in the live list, and the session behind it. */
    method Search(pss: Pss) returns (found: bool, next: Pss?)
      requires Distinct(livePssList)
      ensures found <==> pss in livePssList
      ensures found ==> var k := IndexOf(livePssList, pss);
        next == if k + 1 < |livePssList| then livePssList[k + 1] else null
    {
      for i := 0 to |livePssList|
        invariant pss !in livePssList[..i]
      {
        if livePssList[i] == pss {
          assert IndexOf(livePssList, pss) == i;
          return true, if i + 1 < |livePssList| then livePssList[i + 1] else null;
        }
      }
      return false, null;
    }

    static function IndexOf(list: seq<Pss>, pss: Pss): (k: nat)
      ensures k <= |list| && pss !in list[..k]
      ensures k < |list| ==> list[k] == pss
      ensures pss in list ==> k < |list|
    {
      if list == [] || list[0] == pss then 0 else IndexOf(list[1..], pss) + 1
    }

    /** How many more frames a session sends until it is quiescent, if nothing changes. */
    ghost function Todo(s: Pss): nat
      reads this, s
    {
      var n := |livePssList|;
      (match s.walk
       case WalkNone => 0
       case WalkInitial => n + 2
       case WalkList =>
         if s.walkNext == null then 1
         else if s.walkNext in livePssList then n - IndexOf(livePssList, s.walkNext) + 1
         else 2
       case WalkFinal => 1)
      + if s.changedPartway then n + 2 else 0
    }

    /** LWS_CALLBACK_SERVER_WRITEABLE, with a write that succeeds */
    method Writeable(pss: Pss)
      requires Valid() && pss in livePssList
      modifies pss
      ensures Valid()
      ensures old(pss.walk.WalkNone?) ==> unchanged(pss)
      ensures !old(pss.walk.WalkNone?) ==> |pss.frames| == |old(pss.frames)| + 1 && old(pss.frames) <= pss.frames
      ensures !old(pss.walk.WalkNone?) ==> Todo(pss) == old(Todo(pss)) - 1
    {
      hide FramingOf, Listed, Vhd.IndexOf, Vhd.Consistent, Vhd.Todo;
      match pss.walk {
        case WalkNone => return;
        case WalkInitial => Begin(pss);
        case WalkList =>
          if pss.walkNext == null {
            Finish(pss);
          } else {
            SendEntry(pss);
          }
        case WalkFinal => Finish(pss);
      }
    }

    /** The WALK_LIST part of the callback, when there is a next entry. */
    method SendEntry(pss: Pss)
      requires pss.walk.WalkList? && pss.walkNext != null
      requires Distinct(livePssList) && pss in livePssList && Consistent(pss)
      modifies pss
      ensures Consistent(pss) && Todo(pss) == old(Todo(pss)) - 1
      ensures |pss.frames| == |old(pss.frames)| + 1 && old(pss.frames) <= pss.frames
    {
      hide FramingOf, Listed, Vhd.IndexOf;
      pss.subsequent := true;
      var entry := pss.walkNext;
      ghost var k := IndexOf(livePssList, entry);
      var found, next := Search(entry);
      if !found {
        // our next guy went away
        Write(pss, Frame(false, false, null));
        pss.walk := WalkFinal;
        pss.changedPartway := true;
      } else {
        assert !pss.changedPartway ==> |Listed(pss.frames)| == k && livePssList[..k + 1] == livePssList[..k] + [entry];
        Write(pss, Frame(false, false, entry));
        pss.walkNext := next;
        if next == null {
          pss.walk := WalkFinal;
        } else {
          assert IndexOf(livePssList, next) == k + 1;
        }
      }
    }

    /** The WALK_INITIAL part of the callback. */
    method Begin(pss: Pss)
      requires pss.walk.WalkInitial? && pss in livePssList && Consistent(pss)
      modifies pss
      ensures Consistent(pss) && Todo(pss) == old(Todo(pss)) - 1
      ensures |pss.frames| == |old(pss.frames)| + 1 && old(pss.frames) <= pss.frames
    {
      hide FramingOf, Listed;
      Write(pss, Frame(true, false, null));
      pss.walk := WalkList;
      pss.walkNext := Head();
    }

    /** The walk_final part of the callback. */
    method Finish(pss: Pss)
      requires pss.walk.WalkFinal? || (pss.walk.WalkList? && pss.walkNext == null)
      requires pss in livePssList && Consistent(pss)
      modifies pss
      ensures Consistent(pss) && Todo(pss) == old(Todo(pss)) - 1
      ensures |pss.frames| == |old(pss.frames)| + 1 && old(pss.frames) <= pss.frames
      ensures pss.walk == if old(pss.changedPartway) then WalkInitial else WalkNone
    {
      hide FramingOf, Listed, Vhd.IndexOf;
      Write(pss, Frame(false, true, null));
      if pss.changedPartway {
        pss.changedPartway := false;
        pss.subsequent := false;
        pss.walkNext := Head();
        pss.walk := WalkInitial;
      } else {
        pss.walk := WalkNone;
      }
    }

    /** lws_write() */
    ghost method Write(pss: Pss, f: Frame)
      modifies pss`frames
      ensures pss.frames == old(pss.frames) + [f]
      ensures FramingOf(pss.frames) ==
        match FramingOf(old(pss.frames))
        case Broken => Broken
        case Between => if f.text && !f.fin then Inside else Broken
        case Inside => if f.text then Broken else if f.fin then Between else Inside
      ensures Listed(pss.frames) ==
        if f.text then [] else Listed(old(pss.frames)) + if f.entry == null then [] else [f.entry]
    {
      AddFrame(pss.frames, f);
      pss.frames := pss.frames + [f];
    }

    /** In every valid state, a session that is not walking has last completed a message that lists
        exactly the live sessions, once each and in list order. */
    lemma QuiescentIsUpToDate(s: Pss)
      requires Valid() && s in livePssList && s.walk.WalkNone?
      ensures FramingOf(s.frames) == Between && Listed(s.frames) == livePssList
      ensures Distinct(Listed(s.frames))
    {
      assert Consistent(s);
    }

    /** A session that can go on writing while nothing changes gets quiescent after exactly Todo(pss)
        frames, and that is never more than two messages about the live sessions. */
    method Settle(pss: Pss) returns (count: nat)
      requires Valid() && pss in livePssList
      modifies pss
      ensures Valid() && pss.walk.WalkNone? && Listed(pss.frames) == livePssList
      ensures count == old(Todo(pss)) <= 2 * (|livePssList| + 2)
      ensures |pss.frames| == |old(pss.frames)| + count
    {
      count := 0;
      while !pss.walk.WalkNone?
        invariant Valid() && count + Todo(pss) == old(Todo(pss))
        invariant |pss.frames| == |old(pss.frames)| + count
        decreases Todo(pss)
      {
        Writeable(pss);
        count := count + 1;
      }
      QuiescentIsUpToDate(pss);
    }
  }

  datatype Event = Join | Leave(k: nat) | CanWrite(k: nat)

  /** Any run of joins, leaves and writeable callbacks: every session that is quiescent at its end is
      up to date, and every session has kept to the framing of messages. */
  method Run(events: seq<Event>) returns (vhd: Vhd)
    ensures forall s :: s in vhd.livePssList ==>
      && FramingOf(s.frames) != Broken
      && (s.walk.WalkNone? ==> FramingOf(s.frames) == Between && Listed(s.frames) == vhd.livePssList)
  {
    vhd := new Vhd();
    for i := 0 to |events|
      invariant vhd.Valid() && fresh(vhd) && fresh(set s | s in vhd.livePssList)
    {
      match events[i] {
        case Join =>
          var pss := new Pss();
          vhd.Established(pss);
        case Leave(k) =>
          if k < |vhd.livePssList| {
            WithoutKeeps(vhd.livePssList, vhd.livePssList[k]);
            vhd.Closed(vhd.livePssList[k]);
          }
        case CanWrite(k) =>
          if k < |vhd.livePssList| {
            vhd.Writeable(vhd.livePssList[k]);
          }
      }
    }
    assert forall s :: s in vhd.livePssList ==> vhd.Consistent(s);
  }
}
