/** The symbolizer's line reader: a window of a file slides through one buffer. */
module LineReader {
  import opened Lists

  /** A file that is read with pread().  The replies decide how much each call yields. */
  class File {
    const content: string
    const reply: nat -> int
    var calls: nat
    /** Some read has failed. */
    ghost var failed: bool

    constructor (content: string, reply: nat -> int)
      ensures this.content == content && this.reply == reply && !failed
    {
      this.content, this.reply, calls, failed := content, reply, 0, false;
    }

    /** How much of the file there is for a read. */
    function Available(count: nat, offset: nat): nat
    {
      if offset <= |content| then Min(count, |content| - offset) else 0
    }

    /** pread() to buf[at..]: -1 for an error, 0 only when there is nothing to read, and otherwise any
        part of what there is. */
    method Pread(buf: array<char>, at: nat, count: nat, offset: nat) returns (len: int)
      requires at + count <= buf.Length
      modifies this`calls, this`failed, buf
      ensures -1 <= len <= Available(count, offset) && (len == 0 <==> Available(count, offset) == 0)
      ensures failed == (old(failed) || len < 0)
      ensures forall k :: 0 <= k < buf.Length ==>
        buf[k] == if at <= k < at + len then content[offset + k - at] else old(buf[k])
    {
      var n := reply(calls);
      calls := calls + 1;
      var available := Available(count, offset);
      if available == 0 {
        return 0;
      }
      if n < 0 {
        failed := true;
        return -1;
      }
      len := if n == 0 then 1 else Min(n, available);
      forall k | 0 <= k < len {
        buf[at + k] := content[offset + k];
      }
    }
  }

  /** ReadFromOffset() */
  method ReadFromOffset(fd: File, buf: array<char>, at: nat, count: nat, offset: nat) returns (numBytes: int)
    requires at + count <= buf.Length
    modifies fd`calls, fd`failed, buf
    ensures numBytes == fd.Available(count, offset) || (numBytes == -1 && fd.failed)
    ensures old(fd.failed) ==> fd.failed
    ensures numBytes >= 0 ==> fd.failed == old(fd.failed)
    ensures numBytes >= 0 ==> forall k :: 0 <= k < buf.Length ==>
      buf[k] == if at <= k < at + numBytes then fd.content[offset + k - at] else old(buf[k])
  {
    numBytes := 0;
    while numBytes < count
      invariant 0 <= numBytes <= fd.Available(count, offset) && fd.failed == old(fd.failed)
      invariant forall k :: 0 <= k < buf.Length ==>
        buf[k] == if at <= k < at + numBytes then fd.content[offset + k - at] else old(buf[k])
      decreases count - numBytes
    {
      var len := fd.Pread(buf, at + numBytes, count - numBytes, offset + numBytes);
      if len < 0 {
        return -1;
      }
      if len == 0 {
        break;
      }
      numBytes := numBytes + len;
    }
  }

  // ---------- lines ----------

  /** Where the first newline is at or behind a position. */
  function Newline(s: string, from: nat): (r: Option<nat>)
    requires from <= |s|
    ensures r.Some? ==> from <= r.value < |s| && s[r.value] == '\n' && forall k :: from <= k < r.value ==> s[k] != '\n'
    ensures r.None? ==> forall k :: from <= k < |s| ==> s[k] != '\n'
    decreases |s| - from
  {
    if from == |s| then None else if s[from] == '\n' then Some(from) else Newline(s, from + 1)
  }

  /** The line at a position, if it is terminated and with its newline fits in a buffer of size n. */
  function LineAt(s: string, from: nat, n: nat): (r: Option<nat>)
    requires from <= |s|
    ensures r.Some? ==> from <= r.value < |s|
  {
    var nl := Newline(s, from);
    if nl.Some? && nl.value - from + 1 <= n then nl else None
  }

  /** `window` is the text from position `base` on. */
  ghost predicate Window(s: string, base: nat, window: string)
  {
    base + |window| <= |s| && s[base..base + |window|] == window
  }

  lemma LineInWindow(s: string, base: nat, window: string, at: nat, n: nat)
    requires Window(s, base, window) && at < |window| && at < n
    requires window[at] == '\n' && '\n' !in window[..at]
    ensures LineAt(s, base, n) == Some(base + at) && s[base..base + at] == window[..at]
  {
    var w := s[base..base + |window|];
    assert s[base..base + at] == w[..at];
    assert forall k :: base <= k < base + at ==> s[k] == window[..at][k - base];
    assert s[base + at] == w[at];
    NewlineIs(s, base, base + at);
  }

  lemma {:induction false} NewlineIs(s: string, from: nat, nl: nat)
    requires from <= nl < |s| && s[nl] == '\n' && forall k :: from <= k < nl ==> s[k] != '\n'
    ensures Newline(s, from) == Some(nl)
    decreases nl - from
  {
    if from < nl { NewlineIs(s, from + 1, nl); }
  }

  lemma NoLineInWindow(s: string, base: nat, window: string, n: nat)
    requires Window(s, base, window) && '\n' !in window
    requires base + |window| == |s| || n <= |window|
    ensures LineAt(s, base, n) == None
  {
    assert forall k :: base <= k < base + |window| ==> s[k] == s[base..base + |window|][k - base];
  }

  lemma NothingToRead(s: string, from: nat, n: nat)
    requires from <= |s| && (from == |s| || n == 0)
    ensures LineAt(s, from, n) == None
  {}

  function Lines(s: string, from: nat, n: nat): seq<string>
    requires from <= |s|
    decreases |s| - from
  {
    var nl := LineAt(s, from, n);
    if nl.None? then [] else [s[from..nl.value]] + Lines(s, nl.value + 1, n)
  }

  function Unlines(lines: seq<string>): string
  {
    if lines == [] then "" else lines[0] + "\n" + Unlines(lines[1..])
  }

  /** The lines are the file up to the first line that is too long or has no end. */
  lemma {:induction false} LinesAreThePrefix(s: string, from: nat, n: nat)
    requires from <= |s|
    ensures var text := Unlines(Lines(s, from, n));
      && text <= s[from..]
      && (forall line :: line in Lines(s, from, n) ==> '\n' !in line && |line| < n)
      && var rest := s[from + |text|..]; '\n' !in rest[..Min(n, |rest|)]
    decreases |s| - from
  {
    hide Newline, LineAt, Lines, Unlines;
    var nl := LineAt(s, from, n);
    LineAtIs(s, from, n);
    LinesStep(s, from, n);
    if nl.Some? {
      var line := s[from..nl.value] + "\n";
      LinesAreThePrefix(s, nl.value + 1, n);
      var more := Unlines(Lines(s, nl.value + 1, n));
      assert s[from..] == line + s[nl.value + 1..];
      assert from + |line + more| == nl.value + 1 + |more|;
    } else {
      assert s[from + 0..] == s[from..];
    }
  }

  lemma LinesStep(s: string, from: nat, n: nat)
    requires from <= |s|
    ensures var nl := LineAt(s, from, n);
      if nl.None? then Lines(s, from, n) == [] && Unlines([]) == ""
      else Lines(s, from, n) == [s[from..nl.value]] + Lines(s, nl.value + 1, n) &&
           Unlines(Lines(s, from, n)) == s[from..nl.value] + "\n" + Unlines(Lines(s, nl.value + 1, n))
  {
    var nl := LineAt(s, from, n);
    if nl.Some? {
      assert ([s[from..nl.value]] + Lines(s, nl.value + 1, n))[1..] == Lines(s, nl.value + 1, n);
    }
  }

  lemma LineAtIs(s: string, from: nat, n: nat)
    requires from <= |s|
    ensures match LineAt(s, from, n)
      case Some(nl) => s[nl] == '\n' && '\n' !in s[from..nl] && nl - from < n
      case None => var rest := s[from..]; '\n' !in rest[..Min(n, |rest|)]
  {
    var rest := s[from..];
    assert forall k :: 0 <= k < |rest| ==> rest[k] == s[from + k];
  }

  // ---------- the reader ----------

  class Reader {
    const fd: File
    const buf: array<char>
    var offset: nat
    var bol: nat
    var eol: nat
    var eod: nat

    constructor (fd: File, buf: array<char>, offset: nat)
      requires offset <= |fd.content|
      ensures Valid() && this.fd == fd && this.buf == buf && Position() == offset
    {
      this.fd, this.buf, this.offset := fd, buf, offset;
      bol, eol, eod := 0, 0, 0;
    }

    /** Behind the last line, the buffer holds the file up to `offset`. */
    ghost predicate Valid()
      reads this, buf
    {
      && eod <= buf.Length && eod <= offset <= |fd.content|
      && (eod > 0 ==> eol < eod && Holds(eol + 1))
    }

    ghost predicate Holds(from: nat)
      reads this`eod, this`offset, buf
      requires eod <= buf.Length && eod <= offset <= |fd.content|
    {
      forall k :: from <= k < eod ==> buf[k] == fd.content[offset - eod + k]
    }

    /** Where the next line begins in the file. */
    ghost function Position(): nat
      reads this, buf
      requires Valid()
    {
      if eod == 0 then offset else offset - eod + eol + 1
    }

    /** memchr() from bol to eod */
    method FindLineFeed() returns (found: bool, at: nat)
      requires bol <= eod <= buf.Length
      ensures found ==> bol <= at < eod && buf[at] == '\n' && '\n' !in buf[bol..at]
      ensures !found ==> '\n' !in buf[bol..eod]
    {
      at := bol;
      while at < eod
        invariant bol <= at <= eod && '\n' !in buf[bol..at]
      {
        if buf[at] == '\n' {
          return true, at;
        }
        at := at + 1;
      }
      return false, at;
    }

    /** memmove() of the rest behind bol to the beginning */
    method MoveDown(count: nat)
      requires bol + count <= buf.Length
      modifies buf
      ensures forall k :: 0 <= k < count ==> buf[k] == old(buf[bol + k])
    {
      var k := 0;
      while k < count
        invariant k <= count
        invariant forall j :: 0 <= j < k ==> buf[j] == old(buf[bol + j])
        invariant forall j :: k <= j < buf.Length ==> buf[j] == old(buf[j])
      {
        buf[k] := buf[bol + k];
        k := k + 1;
      }
    }

    /** Reads on behind the first `keep` characters of the buffer, which hold the beginning of the
        line at `position`. */
    method Refill(keep: nat, ghost position: nat) returns (ok: bool)
      requires keep <= buf.Length && keep <= offset <= |fd.content| && position == offset - keep
      requires forall k :: 0 <= k < keep ==> buf[k] == fd.content[position + k]
      modifies this, fd`calls, fd`failed, buf
      ensures old(fd.failed) ==> fd.failed
      ensures ok ==> bol == 0 && keep < eod <= buf.Length && eod <= offset <= |fd.content| && Holds(0)
      ensures ok ==> offset - eod == position && (eod == buf.Length || offset == |fd.content|)
      ensures ok ==> fd.failed == old(fd.failed)
      ensures !ok ==> offset == old(offset) && (fd.failed || buf.Length == keep || offset == |fd.content|)
    {
      var numBytes := ReadFromOffset(fd, buf, keep, buf.Length - keep, offset);
      if numBytes <= 0 {
        return false;
      }
      offset := offset + numBytes;
      eod := keep + numBytes;
      bol := 0;
      return true;
    }

    /** The part of ReadLine() that gets the next line to the buffer, at bol. */
    method Advance() returns (ok: bool)
      requires Valid()
      modifies this, fd`calls, fd`failed, buf
      ensures old(fd.failed) ==> fd.failed
      ensures ok ==> bol <= eod <= buf.Length && eod <= offset <= |fd.content| && Holds(bol) && eod > 0
      ensures ok ==> offset - eod + bol == old(Position()) && fd.failed == old(fd.failed)
      ensures ok ==> Window(fd.content, old(Position()), buf[bol..eod])
      ensures ok ==> '\n' in buf[bol..eod] || eod - bol == buf.Length || offset == |fd.content|
      ensures !ok && !fd.failed ==> LineAt(fd.content, old(Position()), buf.Length).None?
    {
      hide Newline, LineAt, Window;
      ghost var position := Position();
      if eod == 0 {  // first time
        ok := Refill(0, position);
        if ok {
          HoldsWindow();
        } else if !fd.failed {
          NothingToRead(fd.content, position, buf.Length);
        }
        return;
      }
      bol := eol + 1;
      var complete, at := FindLineFeed();
      if complete {
        assert buf[bol..eod][at - bol] == '\n';
        HoldsWindow();
        return true;
      }
      ok := ReadOn(position);
      if ok { HoldsWindow(); }
    }

    lemma HoldsWindow()
      requires bol <= eod <= buf.Length && eod <= offset <= |fd.content| && Holds(bol)
      ensures Window(fd.content, offset - eod + bol, buf[bol..eod])
    {}

    /** The beginning of an incomplete line goes to the front, and the file is read on behind it. */
    method ReadOn(ghost position: nat) returns (ok: bool)
      requires 0 < bol <= eod <= buf.Length && eod <= offset <= |fd.content| && Holds(bol)
      requires '\n' !in buf[bol..eod] && position == offset - eod + bol
      modifies this, fd`calls, fd`failed, buf
      ensures old(fd.failed) ==> fd.failed
      ensures ok ==> bol == 0 < eod <= buf.Length && eod <= offset <= |fd.content| && Holds(0)
      ensures ok ==> offset - eod == position && (eod == buf.Length || offset == |fd.content|)
      ensures ok ==> fd.failed == old(fd.failed)
      ensures !ok && !fd.failed ==> LineAt(fd.content, position, buf.Length).None?
    {
      var incomplete := eod - bol;
      ghost var rest := buf[bol..eod];
      HoldsWindow();
      hide Newline, LineAt;
      MoveDown(incomplete);
      assert forall k :: 0 <= k < incomplete ==> buf[k] == rest[k] == fd.content[position + k];
      ok := Refill(incomplete, position);
      if !ok && offset == |fd.content| {
        NoLineInWindow(fd.content, position, rest, buf.Length);
      }
    }

    /** ReadLine().  A reader that returned false is not used again. */
    method ReadLine() returns (ok: bool)
      requires Valid()
      modifies this, fd`calls, fd`failed, buf
      ensures old(fd.failed) ==> fd.failed
      ensures ok ==> LineAt(fd.content, old(Position()), buf.Length).Some?
      ensures ok ==> var nl := LineAt(fd.content, old(Position()), buf.Length).value;
        && Valid() && Position() == nl + 1 && fd.failed == old(fd.failed)
        && bol <= eol < buf.Length && buf[bol..eol] == fd.content[old(Position())..nl] && buf[eol] == '\0'
      ensures !ok && !fd.failed ==> LineAt(fd.content, old(Position()), buf.Length).None?
    {
      hide Newline, LineAt, Window, Reader.Holds;
      ghost var position := Position();
      ok := Advance();
      if !ok {
        return false;
      }
      ghost var window := buf[bol..eod];
      var found;
      found, eol := FindLineFeed();
      if !found {
        NoLineInWindow(fd.content, position, window, buf.Length);
        return false;
      }
      LineInWindow(fd.content, position, window, eol - bol, buf.Length);
      assert window[..eol - bol] == buf[bol..eol];
      Terminate();
      return true;
    }

    /** `*eol_ = '\0'` */
    method Terminate()
      requires bol <= eol < eod <= buf.Length && eod <= offset <= |fd.content| && Holds(bol)
      modifies buf
      ensures Valid() && buf[eol] == '\0' && buf[bol..eol] == old(buf[bol..eol])
    {
      buf[eol] := '\0';
    }
  }

  /** Reading until the first failure gives the lines of the file from the offset on. */
  method ReadLines(fd: File, buf: array<char>, offset: nat) returns (lines: seq<string>)
    requires offset <= |fd.content| && !fd.failed
    modifies fd`calls, fd`failed, buf
    ensures !fd.failed ==> lines == Lines(fd.content, offset, buf.Length)
    ensures lines <= Lines(fd.content, offset, buf.Length)
  {
    hide Lines, LineAt;
    var reader := new Reader(fd, buf, offset);
    lines := [];
    var more := true;
    while more
      invariant reader.fd == fd && reader.buf == buf && fresh(reader)
      invariant more ==> reader.Valid() && !fd.failed
      invariant more ==>
        Lines(fd.content, offset, buf.Length) == lines + Lines(fd.content, reader.Position(), buf.Length)
      invariant !more ==> (!fd.failed ==> lines == Lines(fd.content, offset, buf.Length))
      invariant lines <= Lines(fd.content, offset, buf.Length)
      decreases more, if more then |fd.content| - reader.Position() else 0
    {
      ghost var position := reader.Position();
      LinesStep(fd.content, position, buf.Length);
      more := reader.ReadLine();
      if more {
        lines := lines + [buf[reader.bol..reader.eol]];
      }
    }
  }
}
