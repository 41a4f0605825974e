/** The counters of a log file object: 32-bit sizes, rollover, and which pages of the file are dropped. */
module LogFile {

  const TWO_32 := 0x1_0000_0000
  const MIB := 0x10_0000
  const ROLLOVER_ATTEMPT_FREQUENCY := 0x20
  const FLUSH_SIZE := 1000000

  /** Unsigned 32-bit arithmetic. */
  function Add32(a: int, b: int): int { (a + b) % TWO_32 }

  function Sub32(a: int, b: int): int { (a - b) % TWO_32 }

  lemma NoWrap(a: int, b: int)
    ensures 0 <= a + b < TWO_32 ==> Add32(a, b) == a + b
    ensures 0 <= a - b < TWO_32 ==> Sub32(a, b) == a - b
  {}

  /** Rounded down to whole MiB. */
  function Whole(length: int): int { length - length % MIB }

  lemma WholeSteps(length: int, end: int)
    requires end % MIB == 0
    ensures Whole(length) == length - length % MIB && Whole(length) <= length < Whole(length) + MIB
    ensures (Whole(length) - MIB - end) % MIB == 0
  {}

  /** Bytes of a file that posix_fadvise() was told to drop from memory. */
  datatype Range = Range(offset: int, length: int)

  /** The ranges follow each other from 0 to `end`, each of at least 2 MiB and of whole MiB. */
  ghost predicate Contiguous(drops: seq<Range>, end: int)
  {
    if drops == [] then end == 0
    else
      var last := drops[|drops| - 1];
      && last.offset + last.length == end && last.length >= 2 * MIB && last.length % MIB == 0
      && Contiguous(drops[..|drops| - 1], last.offset)
  }

  lemma {:induction false} ContiguousFromZero(drops: seq<Range>, end: int)
    requires Contiguous(drops, end)
    ensures end >= 0 && end % MIB == 0
    ensures forall i :: 0 <= i < |drops| ==>
      0 <= drops[i].offset && drops[i].offset % MIB == 0 && drops[i].offset + drops[i].length <= end
    ensures forall i, j :: 0 <= i < j < |drops| ==> drops[i].offset + drops[i].length <= drops[j].offset
    decreases |drops|
  {
    if drops != [] {
      ContiguousFromZero(drops[..|drops| - 1], drops[|drops| - 1].offset);
      forall i | 0 <= i < |drops| - 1 ensures drops[i] == drops[..|drops| - 1][i] {}
    }
  }

  lemma ContiguousAppend(drops: seq<Range>, end: int, next: int)
    requires Contiguous(drops, end) && next - end >= 2 * MIB && (next - end) % MIB == 0
    ensures Contiguous(drops + [Range(end, next - end)], next)
  {
    var longer := drops + [Range(end, next - end)];
    assert longer[..|longer| - 1] == drops;
  }

  /** Every byte below the end is in exactly one of the ranges. */
  lemma {:induction false} ContiguousCovers(drops: seq<Range>, end: int, at: int) returns (i: nat)
    requires Contiguous(drops, end) && 0 <= at < end
    ensures i < |drops| && drops[i].offset <= at < drops[i].offset + drops[i].length
    decreases |drops|
  {
    i := |drops| - 1;
    if at < drops[i].offset {
      i := ContiguousCovers(drops[..i], drops[i].offset, at);
    }
  }

  /** One call of Write() and what the system around it does. */
  datatype Request = Request(
    forceFlush: bool, length: nat, header: nat,
    pidChanged: bool, now: int, later: int,
    diskFull: bool,        // FLAGS_stop_logging_if_full_disk, and errno is ENOSPC
    dropMemory: bool,      // FLAGS_drop_log_memory
    names: seq<string>,    // the default name in each of the logging directories
    canCreate: set<string>)

  /** The counted length at which a file was given up, and whether that was because of a new process. */
  datatype Rollover = Rollover(size: int, pidChanged: bool)

  datatype Outcome = Silent | NoFile | Full | Stopped | Logged

  class LogFileObject {
    /** FLAGS_max_log_size, and UsecToCycles() of FLAGS_logbufsecs. */
    const maxLogSizeFlag: nat
    const flushInterval: int

    var selected: bool
    var baseName: string
    var extension: string
    var isOpen: bool
    var bytesSinceFlush: int
    var droppedMemLength: int
    var fileLength: int
    var rolloverAttempt: int
    var nextFlushTime: int
    var stopWriting: bool

    /** What a header and a message have together at most. */
    ghost const cap: nat
    /** The bytes written since the counters were reset, without wrapping: to files that were closed
        because of a new name, and to the open one. */
    ghost var carried: nat
    ghost var inFile: nat
    ghost var drops: seq<Range>
    ghost var rollovers: seq<Rollover>

    /** LogFileObject(); no name is a null pointer. */
    constructor (maxLogSizeFlag: nat, flushInterval: int, name: string, named: bool, ghost cap: nat)
      requires cap < MIB
      ensures Valid() && this.cap == cap && this.maxLogSizeFlag == maxLogSizeFlag && drops == [] && rollovers == []
      ensures !isOpen && selected == named && baseName == (if named then name else "") && !stopWriting
      ensures fileLength == 0 && rolloverAttempt == ROLLOVER_ATTEMPT_FREQUENCY - 1 && carried == 0
      ensures droppedMemLength == 0 && bytesSinceFlush == 0 && nextFlushTime == 0
      ensures this.flushInterval == flushInterval && extension == ""
    {
      this.maxLogSizeFlag, this.flushInterval, this.cap := maxLogSizeFlag, flushInterval, cap;
      selected, baseName, extension := named, if named then name else "", "";
      isOpen, stopWriting := false, false;
      bytesSinceFlush, droppedMemLength, fileLength, nextFlushTime := 0, 0, 0, 0;
      rolloverAttempt := ROLLOVER_ATTEMPT_FREQUENCY - 1;
      carried, inFile, drops, rollovers := 0, 0, [], [];
    }

    /** MaxLogSize(), in MiB */
    function MaxLogSize(): (m: nat)
      ensures 1 <= m < 4096 && (1 <= maxLogSizeFlag < 4096 ==> m == maxLogSizeFlag)
      ensures maxLogSizeFlag == 0 || maxLogSizeFlag >= 4096 ==> m == 1
    {
      if maxLogSizeFlag > 0 && maxLogSizeFlag < 4096 then maxLogSizeFlag else 1
    }

    ghost predicate Valid()
      reads this
    {
      && cap < MIB
      && fileLength == carried + inFile < MaxLogSize() * MIB + cap
      && (!isOpen ==> inFile == 0)
      && 0 <= bytesSinceFlush <= fileLength
      && 0 <= rolloverAttempt < ROLLOVER_ATTEMPT_FREQUENCY
      && Contiguous(drops, droppedMemLength)
      && (droppedMemLength > 0 ==> droppedMemLength + MIB <= fileLength)
      && RolledAtLimit()
    }

    /** Every file was given up at its limit, unless the process had changed. */
    ghost predicate RolledAtLimit()
      reads this`rollovers
    {
      forall x <- rollovers :: !x.pidChanged ==> MaxLogSize() * MIB <= x.size < MaxLogSize() * MIB + cap
    }

    /** Nothing wraps as long as the object is valid. */
    lemma Below32()
      requires Valid()
      ensures 0 <= bytesSinceFlush <= fileLength < TWO_32 && 0 <= droppedMemLength <= fileLength
      ensures fileLength == inFile <==> carried == 0
    {
      ContiguousFromZero(drops, droppedMemLength);
    }

    method Close()
      requires Valid() && isOpen
      modifies this`isOpen, this`carried, this`inFile, this`rolloverAttempt
      ensures Valid() && !isOpen && carried == old(carried + inFile)
      ensures rolloverAttempt == ROLLOVER_ATTEMPT_FREQUENCY - 1
    {
      isOpen := false;
      rolloverAttempt := ROLLOVER_ATTEMPT_FREQUENCY - 1;
      carried, inFile := carried + inFile, 0;
    }

    /** SetBasename(): the counters stay. */
    method SetBasename(name: string)
      requires Valid()
      modifies this`selected, this`baseName, this`isOpen, this`carried, this`inFile, this`rolloverAttempt
      ensures Valid() && selected && baseName == name
      ensures if old(baseName) != name && old(isOpen)
              then !isOpen && carried == old(carried + inFile) && rolloverAttempt == ROLLOVER_ATTEMPT_FREQUENCY - 1
              else isOpen == old(isOpen) && carried == old(carried) && rolloverAttempt == old(rolloverAttempt)
    {
      selected := true;
      if baseName != name {
        if isOpen {
          Close();
        }
        baseName := name;
      }
    }

    /** SetExtension() */
    method SetExtension(ext: string)
      requires Valid()
      modifies this`extension, this`isOpen, this`carried, this`inFile, this`rolloverAttempt
      ensures Valid() && extension == ext
      ensures if old(extension) != ext && old(isOpen)
              then !isOpen && carried == old(carried + inFile) && rolloverAttempt == ROLLOVER_ATTEMPT_FREQUENCY - 1
              else isOpen == old(isOpen) && carried == old(carried) && rolloverAttempt == old(rolloverAttempt)
    {
      if extension != ext {
        if isOpen {
          Close();
        }
        extension := ext;
      }
    }

    /** FlushUnlocked() */
    method FlushUnlocked(now: int)
      requires Valid()
      modifies this`bytesSinceFlush, this`nextFlushTime
      ensures Valid() && nextFlushTime == now + flushInterval
      ensures bytesSinceFlush == if isOpen then 0 else old(bytesSinceFlush)
    {
      if isOpen {
        bytesSinceFlush := 0;
      }
      nextFlushTime := now + flushInterval;
    }

    /** The file is full, or belongs to another process. */
    predicate Rolls(r: Request): (rolls: bool)
      reads this
      ensures rolls <==>
        r.pidChanged || fileLength >= (if 1 <= maxLogSizeFlag <= 4095 then maxLogSizeFlag * MIB else MIB)
    {
      fileLength / MIB >= MaxLogSize() || r.pidChanged
    }

    lemma NoneDropped()
      ensures Contiguous([], 0)
    {}

    /** The first part of Write(): rolls over when it is time to. */
    method Roll(r: Request)
      requires Valid()
      modifies this
      ensures Valid() && fileLength < MaxLogSize() * MIB
      ensures selected == old(selected) && baseName == old(baseName) && stopWriting == old(stopWriting)
      ensures nextFlushTime == old(nextFlushTime) && extension == old(extension)
      ensures rollovers == old(rollovers) + if old(Rolls(r)) then [Rollover(old(fileLength), r.pidChanged)] else []
      ensures if old(Rolls(r))
              then !isOpen && fileLength == 0 && bytesSinceFlush == 0 && droppedMemLength == 0 && carried == 0 &&
                   drops == [] && rolloverAttempt == ROLLOVER_ATTEMPT_FREQUENCY - 1
              else isOpen == old(isOpen) && fileLength == old(fileLength) && drops == old(drops) &&
                   droppedMemLength == old(droppedMemLength) && carried == old(carried) &&
                   rolloverAttempt == old(rolloverAttempt) &&
                   bytesSinceFlush == old(bytesSinceFlush)
    {
      hide Contiguous, LogFileObject.MaxLogSize, LogFileObject.Rolls;
      NoneDropped();
      if Rolls(r) {
        rollovers := rollovers + [Rollover(fileLength, r.pidChanged)];
        isOpen := false;
        fileLength, bytesSinceFlush, droppedMemLength := 0, 0, 0;
        rolloverAttempt := ROLLOVER_ATTEMPT_FREQUENCY - 1;
        carried, inFile, drops := 0, 0, [];
      }
    }

    /** Some file can be created. */
    predicate CanOpen(r: Request)
      reads this
    {
      if selected then baseName in r.canCreate else exists name :: name in r.names && name in r.canCreate
    }

    method CreateLogfile(r: Request) returns (success: bool)
      requires Valid()
      modifies this`baseName
      ensures Valid() && success == old(CanOpen(r))
      ensures selected ==> baseName == old(baseName)
    {
      if selected {
        return baseName in r.canCreate;
      }
      for i := 0 to |r.names|
        invariant Valid()
        invariant forall j :: 0 <= j < i ==> r.names[j] !in r.canCreate
      {
        baseName := r.names[i];
        if baseName in r.canCreate {
          return true;
        }
      }
      return false;
    }

    /** The second part of Write(): without a file, every 32nd message tries to make one. */
    method Open(r: Request) returns (ready: bool)
      requires Valid() && fileLength < MaxLogSize() * MIB && r.header <= cap && !isOpen
      modifies this
      ensures Valid() && ready == isOpen == (old(CanOpen(r)) && old(rolloverAttempt) == ROLLOVER_ATTEMPT_FREQUENCY - 1)
      ensures selected == old(selected) && (selected ==> baseName == old(baseName))
      ensures stopWriting == old(stopWriting) && nextFlushTime == old(nextFlushTime) && extension == old(extension)
      ensures rollovers == old(rollovers) && carried == old(carried) && drops == old(drops)
      ensures droppedMemLength == old(droppedMemLength)
      ensures fileLength == old(fileLength) + if ready then r.header else 0
      ensures bytesSinceFlush == old(bytesSinceFlush) + if ready then r.header else 0
      ensures rolloverAttempt == (old(rolloverAttempt) + 1) % ROLLOVER_ATTEMPT_FREQUENCY
    {
      hide Contiguous, Add32, LogFileObject.MaxLogSize;
      Below32();
      NoWrap(rolloverAttempt, 1);
      NoWrap(fileLength, r.header);
      NoWrap(bytesSinceFlush, r.header);
      rolloverAttempt := Add32(rolloverAttempt, 1);
      if rolloverAttempt != ROLLOVER_ATTEMPT_FREQUENCY {
        return false;
      }
      rolloverAttempt := 0;
      ready := CreateLogfile(r);
      if !ready {
        return;
      }
      isOpen := true;
      inFile := r.header;
      fileLength := Add32(fileLength, r.header);
      bytesSinceFlush := Add32(bytesSinceFlush, r.header);
    }

    /** What was dropped behind `before`, if anything could be: with 2 MiB or more to drop, one range.  It
        leaves the last 1 to 2 MiB of the counted length, and it leaves the last MiB of the file itself
        exactly when little enough was carried over from files of other names. */
    ghost predicate Drops(before: seq<Range>, end: int, allowed: bool)
      reads this
    {
      if allowed && Whole(fileLength) >= end + 3 * MIB then
        && drops == before + [Range(end, droppedMemLength - end)]
        && droppedMemLength + MIB <= fileLength < droppedMemLength + 2 * MIB
        && (droppedMemLength + MIB <= inFile <==> carried <= fileLength % MIB)
      else
        drops == before && droppedMemLength == end
    }

    lemma NoDrops(allowed: bool)
      requires allowed ==> fileLength < droppedMemLength + 3 * MIB
      ensures Drops(drops, droppedMemLength, allowed)
    {}

    /** Dropping pages behind a flush. */
    method DropMemory()
      requires Valid() && fileLength >= 3 * MIB
      modifies this`droppedMemLength, this`drops
      ensures Valid() && Drops(old(drops), old(droppedMemLength), true) && old(drops) <= drops
      ensures fileLength - droppedMemLength < 4 * MIB
    {
      ContiguousFromZero(drops, droppedMemLength);
      WholeSteps(fileLength, droppedMemLength);
      hide Contiguous, Whole, Sub32, LogFileObject.MaxLogSize;
      // file_length_ & ~((1U << 20U) - 1U)
      var whole := Whole(fileLength);
      NoWrap(whole, MIB);
      var totalDropLength := Sub32(whole, MIB);
      NoWrap(totalDropLength, droppedMemLength);
      var thisDropLength := Sub32(totalDropLength, droppedMemLength);
      if thisDropLength >= 2 * MIB {
        ContiguousAppend(drops, droppedMemLength, totalDropLength);
        drops := drops + [Range(droppedMemLength, thisDropLength)];
        droppedMemLength := totalDropLength;
      }
    }

    /** It is time to flush. */
    predicate Due(r: Request)
      reads this
    {
      r.forceFlush || bytesSinceFlush + r.length >= FLUSH_SIZE || r.now >= nextFlushTime
    }

    /** The third part of Write(): the message itself. */
    method Append(r: Request) returns (ghost outcome: Outcome)
      requires Valid() && isOpen && fileLength + r.length < MaxLogSize() * MIB + cap
      modifies this`fileLength, this`bytesSinceFlush, this`nextFlushTime, this`stopWriting, this`inFile,
               this`droppedMemLength, this`drops
      ensures Valid()
      ensures outcome == if old(stopWriting) then Stopped else if r.diskFull then Full else Logged
      ensures stopWriting == if old(stopWriting) then r.now < old(nextFlushTime) else r.diskFull
      ensures fileLength == old(fileLength) + if outcome.Logged? then r.length else 0
      ensures outcome.Logged? ==>
        if old(Due(r)) then bytesSinceFlush == 0 && nextFlushTime == r.later + flushInterval
        else bytesSinceFlush == old(bytesSinceFlush) + r.length < FLUSH_SIZE && nextFlushTime == old(nextFlushTime)
      ensures !outcome.Logged? ==>
        bytesSinceFlush == old(bytesSinceFlush) && nextFlushTime == old(nextFlushTime)
      ensures Drops(old(drops), old(droppedMemLength), outcome.Logged? && old(Due(r)) && r.dropMemory)
      ensures old(drops) <= drops
    {
      hide Contiguous, Add32, LogFileObject.MaxLogSize, LogFileObject.Drops, LogFileObject.RolledAtLimit;
      if stopWriting {
        if r.now >= nextFlushTime {
          stopWriting := false;
        }
        NoDrops(false);
        return Stopped;
      }
      if r.diskFull {
        stopWriting := true;
        NoDrops(false);
        return Full;
      }
      Below32();
      NoWrap(fileLength, r.length);
      NoWrap(bytesSinceFlush, r.length);
      fileLength := Add32(fileLength, r.length);
      bytesSinceFlush := Add32(bytesSinceFlush, r.length);
      inFile := inFile + r.length;
      if r.forceFlush || bytesSinceFlush >= FLUSH_SIZE || r.now >= nextFlushTime {
        FlushUnlocked(r.later);
        if r.dropMemory && fileLength >= 3 * MIB {
          DropMemory();
        } else {
          NoDrops(r.dropMemory);
        }
      } else {
        NoDrops(false);
      }
      return Logged;
    }

    /** Write() */
    method Write(r: Request) returns (ghost outcome: Outcome)
      requires Valid() && r.header + r.length <= cap
      modifies this
      ensures Valid()
      ensures outcome == Silent <==> old(selected && baseName == "")
      ensures outcome == Silent ==> unchanged(this)
      ensures selected == old(selected) && (selected ==> baseName == old(baseName))
      ensures outcome != Silent ==>
        && (outcome == NoFile <==> !isOpen)
        && isOpen == old((isOpen && !Rolls(r)) ||
             (CanOpen(r) && (Rolls(r) || rolloverAttempt == ROLLOVER_ATTEMPT_FREQUENCY - 1)))
        && (isOpen ==> outcome == if old(stopWriting) then Stopped else if r.diskFull then Full else Logged)
        && rolloverAttempt == if old(isOpen && !Rolls(r)) then old(rolloverAttempt)
             else if old(Rolls(r)) then 0
             else (old(rolloverAttempt) + 1) % ROLLOVER_ATTEMPT_FREQUENCY
      ensures outcome != Silent ==>
        var limit := if 1 <= maxLogSizeFlag <= 4095 then maxLogSizeFlag * MIB else MIB;
        var written := if outcome == Logged then r.length else 0;
        if r.pidChanged || old(fileLength) >= limit then
          // the file is given up, and the counters restart
          && rollovers == old(rollovers) + [Rollover(old(fileLength), r.pidChanged)]
          && carried == 0 && fileLength == (if isOpen then r.header else 0) + written
        else
          && rollovers == old(rollovers) && carried == old(carried) && old(drops) <= drops
          && (old(isOpen) ==> isOpen && fileLength == old(fileLength) + written)
      ensures stopWriting ==
        if outcome == Stopped then r.now < old(nextFlushTime) else if outcome == Full then true else old(stopWriting)
      ensures outcome != Silent ==>
        var rolled := old(Rolls(r));
        var added := (if isOpen && (rolled || !old(isOpen)) then r.header else 0) +
                     (if outcome == Logged then r.length else 0);
        var unflushed := (if rolled then 0 else old(bytesSinceFlush)) + added;
        var due := outcome == Logged && (r.forceFlush || unflushed >= FLUSH_SIZE || r.now >= old(nextFlushTime));
        var before := if rolled then [] else old(drops);
        && carried == (if rolled then 0 else old(carried))
        && fileLength == (if rolled then 0 else old(fileLength)) + added
        && bytesSinceFlush == (if due then 0 else unflushed)
        && Drops(before, if rolled then 0 else old(droppedMemLength), due && r.dropMemory)
    {
      hide LogFileObject.Valid, LogFileObject.Drops, LogFileObject.MaxLogSize, LogFileObject.Rolls;
      if selected && baseName == "" {
        return Silent;
      }
      Roll(r);
      if !isOpen {
        var ready := Open(r);
        if !ready {
          NoDrops(false);
          return NoFile;
        }
      }
      outcome := Append(r);
    }
  }

  // ---------- whole runs ----------

  datatype Step = SetBasename(name: string) | SetExtension(ext: string) | Flush(now: int) | Log(r: Request)

  ghost predicate Disjoint(drops: seq<Range>)
  {
    && (forall i :: 0 <= i < |drops| ==> drops[i].offset % MIB == 0)
    && (forall i :: 0 <= i < |drops| ==> drops[i].length % MIB == 0 && drops[i].length > 0)
    && (forall i, j :: 0 <= i < j < |drops| ==> drops[i].offset + drops[i].length <= drops[j].offset)
  }

  lemma {:induction false} ContiguousIsDisjoint(drops: seq<Range>, end: int)
    requires Contiguous(drops, end)
    ensures Disjoint(drops)
    decreases |drops|
  {
    ContiguousFromZero(drops, end);
    if drops != [] {
      var front := drops[..|drops| - 1];
      ContiguousIsDisjoint(front, drops[|drops| - 1].offset);
      forall i | 0 <= i < |front| ensures drops[i] == front[i] {}
    }
  }

  /** Any calls, with headers and messages of together less than 1 MiB: LogSize() never wraps and stays
      near the limit, and no page is dropped twice. */
  method Run(maxLogSizeFlag: nat, flushInterval: int, name: string, named: bool, steps: seq<Step>, ghost cap: nat)
    returns (object_: LogFileObject, sizes: seq<int>)
    requires cap < MIB
    requires forall s :: s in steps && s.Log? ==> s.r.header + s.r.length <= cap
    ensures object_.Valid() && Disjoint(object_.drops)
    ensures |sizes| == |steps| && object_.maxLogSizeFlag == maxLogSizeFlag
    ensures var limit := if 1 <= maxLogSizeFlag <= 4095 then maxLogSizeFlag * MIB else MIB;
      && (forall size :: size in sizes ==> 0 <= size < limit + cap && size < TWO_32)
      && (forall x :: x in object_.rollovers && !x.pidChanged ==> limit <= x.size < limit + cap)
  {
    object_ := new LogFileObject(maxLogSizeFlag, flushInterval, name, named, cap);
    hide LogFileObject.MaxLogSize, Contiguous;
    sizes := [];
    for i := 0 to |steps|
      invariant object_.Valid() && fresh(object_) && object_.cap == cap && object_.maxLogSizeFlag == maxLogSizeFlag
      invariant |sizes| == i
      invariant forall size :: size in sizes ==> 0 <= size < object_.MaxLogSize() * MIB + cap && size < TWO_32
    {
      assert steps[i] in steps;
      match steps[i] {
        case SetBasename(name) => object_.SetBasename(name);
        case SetExtension(ext) => object_.SetExtension(ext);
        case Flush(now) => object_.FlushUnlocked(now);
        case Log(r) => var _ := object_.Write(r);
      }
      object_.Below32();
      sizes := sizes + [object_.fileLength];
    }
    ContiguousIsDisjoint(object_.drops, object_.droppedMemLength);
  }

  /** A new name does not reset the counters: three messages to one file and one to the next, and the
      pages of the second file are dropped to beyond its end, the last MiB included. */
  method RenamedTail() returns (log: LogFileObject)
    ensures log.Valid() && log.drops == [Range(0, 2 * MIB)]
    ensures log.inFile == 1000100 && log.carried == 3000100 && log.isOpen
  {
    hide Contiguous;
    var r := Request(false, 1000000, 100, false, 0, 0, false, true, [], {"a", "b"});
    log := new LogFileObject(1800, 1, "a", true, 1000100);
    ghost var o := log.Write(r);
    assert log.fileLength == 1000100;
    o := log.Write(r);
    o := log.Write(r);
    assert log.fileLength == 3000100 && log.drops == [] && log.droppedMemLength == 0;
    log.SetBasename("b");
    o := log.Write(r);
    ContiguousFromZero(log.drops, log.droppedMemLength);
  }
}
