/** Cutting a log file down to its end, in place. */
module LogTruncate {
  import opened Lists

  const COPY_BLOCK_SIZE := 8 * 1024

  const TWO_63 := 0x8000_0000_0000_0000
  const TWO_64 := 0x1_0000_0000_0000_0000

  type Byte = bv8

  ghost predicate IsBlock(content: seq<Byte>, buf: seq<Byte>, offset: nat)
  {
    offset + |buf| <= |content| && forall k :: 0 <= k < |buf| ==> buf[k] == content[offset + k]
  }

  /** The first n bytes of buf have gone to `offset`, and nothing else has changed. */
  ghost predicate Written(before: seq<Byte>, after: seq<Byte>, buf: seq<Byte>, offset: nat, n: int)
    requires n <= |buf|
  {
    && |after| == |before|
    && forall k :: 0 <= k < |after| ==> after[k] == if offset <= k < offset + n then buf[k - offset] else before[k]
  }

  /** A file that no one else touches.  `reply` stands for what the system makes of each read and each
      write: a negative number fails, and otherwise it is the most that is transferred. */
  class File {
    var content: seq<Byte>
    const reply: nat -> int
    var next: nat
    /** No read failed, and no write failed or was short. */
    ghost var smooth: bool

    constructor (content: seq<Byte>, reply: nat -> int)
      ensures this.content == content && this.reply == reply && smooth
    {
      this.content, this.reply, next, smooth := content, reply, 0, true;
    }

    /** pread(): the bytes, or an error.  Nothing is read only at the end. */
    method Pread(count: nat, offset: nat) returns (bytesin: int, buf: seq<Byte>)
      requires count > 0
      modifies this`next, this`smooth
      ensures -1 <= bytesin <= count && |buf| == (if bytesin > 0 then bytesin else 0)
      ensures bytesin > 0 ==> IsBlock(content, buf, offset)
      ensures bytesin == 0 <==> offset >= |content|
      ensures smooth == (old(smooth) && bytesin >= 0)
    {
      var n := reply(next);
      next := next + 1;
      if offset >= |content| {
        return 0, [];
      }
      if n < 0 {
        smooth := false;
        return -1, [];
      }
      bytesin := Min(if n == 0 then 1 else n, Min(count, |content| - offset));
      buf := content[offset..offset + bytesin];
    }

    /** pwrite() below the end of the file, of as much as the system takes. */
    method Pwrite(buf: seq<Byte>, offset: nat) returns (bytesout: int)
      requires offset + |buf| <= |content|
      modifies this`content, this`next, this`smooth
      ensures -1 <= bytesout <= |buf|
      ensures Written(old(content), content, buf, offset, bytesout)
      ensures smooth == (old(smooth) && bytesout == |buf|)
    {
      var n := reply(next);
      next := next + 1;
      if n < 0 {
        smooth := false;
        return -1;
      }
      bytesout := Min(n, |buf|);
      content := content[..offset] + buf[..bytesout] + content[offset + bytesout..];
      smooth := smooth && bytesout == |buf|;
    }

    /** ftruncate() to a length below the present one */
    method Ftruncate(length: nat)
      requires length <= |content|
      modifies this`content
      ensures content == old(content)[..length]
    {
      content := content[..length];
    }
  }

  /** The conversion of a uint64 to the signed off_t. */
  function OffT(x: nat): int
    requires x < TWO_64
  {
    if x < TWO_63 then x else x - TWO_64
  }

  /** Whether TruncateLogFile() does anything to a regular file. */
  predicate TooLarge(size: nat, limit: nat, keep: nat)
    requires limit < TWO_64 && keep < TWO_64
  {
    size > OffT(limit) && size > OffT(keep)
  }

  function LastBytes(s: seq<Byte>, keep: int): seq<Byte>
    requires keep <= |s|
  {
    if keep < 0 then [] else s[|s| - keep..]
  }

  /** What becomes of a regular file when every transfer works. */
  function Result(s: seq<Byte>, limit: nat, keep: nat): seq<Byte>
    requires limit < TWO_64 && keep < TWO_64
  {
    if TooLarge(|s|, limit, keep) then LastBytes(s, OffT(keep)) else s
  }

  /** Copies content[readOffset..] to content[writeOffset..] in blocks. */
  method CopyDown(fd: File, start: nat) returns (writeOffset: nat)
    requires 0 < start && fd.smooth
    modifies fd
    ensures writeOffset <= |fd.content| && |fd.content| == |old(fd.content)|
    ensures start >= |old(fd.content)| ==> fd.smooth && writeOffset == 0 && fd.content == old(fd.content)
    ensures start < |old(fd.content)| ==>
      && writeOffset <= |old(fd.content)| - start
      && (fd.smooth <==> writeOffset == |old(fd.content)| - start)
      && (fd.smooth ==> fd.content[..writeOffset] == old(fd.content)[start..])
  {
    ghost var orig := fd.content;
    var readOffset := start;
    writeOffset := 0;
    var bytesin, copybuf := fd.Pread(COPY_BLOCK_SIZE, readOffset);
    while bytesin > 0
      invariant if start < |orig| then readOffset <= |orig|
          else bytesin == 0 && readOffset == start && fd.content == orig
      invariant -1 <= bytesin && |copybuf| == (if bytesin > 0 then bytesin else 0)
      invariant bytesin == 0 <==> readOffset >= |orig|
      invariant Moved(orig, fd.content, start, readOffset, writeOffset)
      invariant bytesin > 0 ==> IsBlock(orig, copybuf, readOffset)
      invariant fd.smooth <==> bytesin >= 0 && writeOffset + start == readOffset
      decreases |orig| - readOffset, bytesin
    {
      hide IsBlock, Written;
      ghost var before := fd.content;
      BlockFits(orig, copybuf, readOffset);
      var bytesout := fd.Pwrite(copybuf, writeOffset);
      MoveStep(orig, before, fd.content, start, readOffset, writeOffset, copybuf, bytesout);
      if bytesout == -1 {
        break;
      }
      readOffset := readOffset + bytesin;
      writeOffset := writeOffset + bytesout;
      bytesin, copybuf := fd.Pread(COPY_BLOCK_SIZE, readOffset);
      SameBlock(orig, fd.content, start, readOffset, writeOffset, copybuf);
    }
  }

  /** The file while it is copied down: what is not read yet is still there, and without short writes
      what is behind is the text from `start` on. */
  ghost predicate Moved(orig: seq<Byte>, content: seq<Byte>, start: nat, readOffset: nat, writeOffset: nat)
  {
    && |content| == |orig| && writeOffset + start <= readOffset
    && (forall k :: readOffset <= k < |orig| ==> content[k] == orig[k])
    && (writeOffset + start == readOffset ==>
        forall k :: 0 <= k < writeOffset && start + k < |orig| ==> content[k] == orig[start + k])
  }

  lemma BlockFits(orig: seq<Byte>, buf: seq<Byte>, offset: nat)
    requires IsBlock(orig, buf, offset)
    ensures offset + |buf| <= |orig|
  {}

  /** The regions may overlap: the block goes to a place that was read before. */
  lemma MoveStep(orig: seq<Byte>, before: seq<Byte>, after: seq<Byte>, start: nat, readOffset: nat,
                 writeOffset: nat, buf: seq<Byte>, n: int)
    requires Moved(orig, before, start, readOffset, writeOffset) && IsBlock(orig, buf, readOffset)
    requires 0 < start && -1 <= n <= |buf| && Written(before, after, buf, writeOffset, n)
    ensures n >= 0 ==> Moved(orig, after, start, readOffset + |buf|, writeOffset + n)
    ensures n < 0 ==> Moved(orig, after, start, readOffset, writeOffset)
  {
    if n == |buf| && writeOffset + start == readOffset {
      forall k | 0 <= k < writeOffset + n && start + k < |orig|
        ensures after[k] == orig[start + k]
      {
        if k >= writeOffset { assert after[k] == buf[k - writeOffset] == orig[readOffset + (k - writeOffset)]; }
      }
    }
    assert forall k :: readOffset + |buf| <= k < |orig| ==> after[k] == before[k];
  }

  lemma SameBlock(orig: seq<Byte>, content: seq<Byte>, start: nat, readOffset: nat, writeOffset: nat, buf: seq<Byte>)
    requires Moved(orig, content, start, readOffset, writeOffset)
    ensures IsBlock(content, buf, readOffset) ==> IsBlock(orig, buf, readOffset)
  {}

  /** What open() makes of the path; a file too big to be how may be emptied by truncate(). */
  datatype Opened = Fd | TooBig(truncated: bool) | Failed

  /** TruncateLogFile(); `regular` says that fstat() works and finds a regular file. */
  method TruncateLogFile(fd: File, limit: nat, keep: nat, how: Opened, regular: bool)
    requires limit < TWO_64 && keep < TWO_64 && fd.smooth
    modifies fd
    ensures !how.Fd? ==> fd.content == if how == TooBig(true) then [] else old(fd.content)
    ensures how.Fd? && !regular ==> fd.content == old(fd.content)
    ensures how.Fd? && regular ==> var orig := old(fd.content);
      && |fd.content| <= |Result(orig, limit, keep)|
      && (fd.smooth <==> |fd.content| == |Result(orig, limit, keep)|)
      && (fd.smooth ==> fd.content == Result(orig, limit, keep))
  {
    match how
    case TooBig(truncated) =>
      if truncated {
        fd.Ftruncate(0);
      }
    case Failed =>
    case Fd =>
      if !regular {
        return;
      }
      var stSize := |fd.content|;
      if stSize <= OffT(limit) {
        return;
      }
      if stSize <= OffT(keep) {
        return;
      }
      var writeOffset := CopyDown(fd, stSize - OffT(keep));
      fd.Ftruncate(writeOffset);
  }

  // ---------- what is promised ----------

  /** The promise: a file larger than both numbers becomes its last `keep` bytes. */
  function Promised(s: seq<Byte>, limit: nat, keep: nat): seq<Byte>
  {
    if |s| > limit && |s| > keep then s[|s| - keep..] else s
  }

  /** The promise is kept unless a number beyond the signed range is taken for a negative one. */
  lemma PromiseKeptWhen(s: seq<Byte>, limit: nat, keep: nat)
    requires limit < TWO_64 && keep < TWO_64 && |s| < TWO_63
    ensures Result(s, limit, keep) == Promised(s, limit, keep) <==>
      s == [] || (limit < TWO_63 && keep < TWO_63) || !TooLarge(|s|, limit, keep)
  {
    if limit >= TWO_63 || keep >= TWO_63 {
      assert Promised(s, limit, keep) == s;
      if s != [] && TooLarge(|s|, limit, keep) { assert |Result(s, limit, keep)| < |s|; }
    }
  }

  /** Asked to keep everything, the code throws everything away. */
  lemma KeepsNothing()
    ensures Result([7], 0, TWO_64 - 1) == [] && Promised([7], 0, TWO_64 - 1) == [7]
  {}
}
