/** The output buffer of the demangler as it is: what each operation of the parsers on it does, whatever
    it holds and however small it is. */
module DemangleBuffer {
  import opened Lists
  import opened MangledText

  /** prev_name and prev_name_length: a stretch of the output. */
  datatype NameRef = NoName | Span(start: nat, length: nat)
  {
    function Length(): nat { if NoName? then 0 else length }
  }

  /** The characters from out_begin to out_end, and the fields of State that go with them. */
  datatype Buffer = Buffer(cells: seq<char>, cur: nat, name: NameRef, overflowed: bool)
  {
    /** out_cur never reaches out_end, unless there is no buffer at all. */
    predicate Bounded() { cur == 0 || cur < |cells| }

    /** How many more characters Append() takes: one cell is for the NUL. */
    function Room(): nat { if cur + 1 < |cells| then |cells| - 1 - cur else 0 }

    function Cell(k: nat): char { if k < |cells| then cells[k] else '\0' }

    /** Append() */
    function Append(str: string): (b: Buffer)
      ensures |b.cells| == |cells| && b.name == name && (Bounded() ==> b.Bounded())
      ensures b.cur == cur + Min(|str|, Room()) && b.overflowed == (overflowed || |str| > Room())
    {
      var n := Min(|str|, Room());
      var over := overflowed || n < |str|;
      var filled := if n == 0 then cells else cells[..cur] + str[..n] + cells[cur + n..];
      Buffer(if over || cur + n >= |cells| then filled else filled[cur + n := '\0'], cur + n, name, over)
    }

    lemma AppendCells(str: string)
      requires Bounded() && str != ""
      ensures var r := Append(str);
        && (forall k :: 0 <= k < cur ==> r.cells[k] == cells[k])
        && (forall k :: cur <= k < r.cur ==> r.cells[k] == str[k - cur])
        && (!r.overflowed ==> r.cur < |cells| && r.cells[r.cur] == '\0')
    {}

    /** The space that keeps a '<' apart from one at the end of the output */
    function Spaced(c: char): (b: Buffer)
      ensures |b.cells| == |cells| && b.name == name && (Bounded() ==> b.Bounded()) && cur <= b.cur
    {
      if c == '<' && 0 < cur && Cell(cur - 1) == '<' then Append(" ") else this
    }

    /** The last identifier is remembered for constructors and destructors. */
    function Named(c: char, length: nat): Buffer
    {
      if IsAlpha(c) || c == '_' then this.(name := Span(cur, length)) else this
    }

    /** MaybeAppendWithLength() with append on */
    function Emit(str: string): (b: Buffer)
      ensures |b.cells| == |cells| && (Bounded() ==> b.Bounded())
    {
      if str == "" then this else Spaced(str[0]).Named(str[0], |str|).Append(str)
    }

    /** The loop of Append() when it copies from the buffer itself */
    function Copy(start: nat, n: nat): (b: Buffer)
      ensures |b.cells| == |cells| && b.name == name && (Bounded() ==> b.Bounded())
      decreases n
    {
      if n == 0 then (if overflowed || cur >= |cells| then this else this.(cells := cells[cur := '\0']))
      else if cur + 1 < |cells| then
        this.(cells := cells[cur := Cell(start)], cur := cur + 1).Copy(start + 1, n - 1)
      else this.(overflowed := true)
    }

    /** MaybeAppendWithLength() on prev_name with append on */
    function Repeat(): (b: Buffer)
      ensures |b.cells| == |cells| && (Bounded() ==> b.Bounded())
    {
      if name.Length() == 0 then this else
      var s := Spaced(Cell(name.start));
      s.Named(s.Cell(name.start), name.length).Copy(name.start, name.length)
    }

    /** MaybeCancelLastSeparator() with append on and inside a nested name */
    function Cancel(): (b: Buffer)
      ensures |b.cells| == |cells| && (Bounded() ==> b.Bounded())
    {
      if 2 <= cur <= |cells| then this.(cells := cells[cur - 2 := '\0'], cur := cur - 2) else this
    }
  }

  /** What the parsers do to the output.  `Back` is `*state = copy`: it returns to where the buffer was
      after the operations `saved`, but the characters stay. */
  datatype Op = Write(str: string) | Repeat | Cut | Back(saved: seq<Op>)

  /** The buffer after a run of operations that began with the given characters. */
  function Play(log: seq<Op>, cells: seq<char>): (b: Buffer)
    ensures |b.cells| == |cells| && b.Bounded()
    decreases log
  {
    if log == [] then Buffer(cells, 0, NoName, false) else
    var b := Play(log[..|log| - 1], cells);
    match log[|log| - 1]
    case Write(str) => b.Emit(str)
    case Repeat => b.Repeat()
    case Cut => b.Cancel()
    case Back(saved) => Play(saved, cells).(cells := b.cells)
  }

  /** The operations without abandoned attempts at their end. */
  function Base(log: seq<Op>): seq<Op>
  {
    if log != [] && log[|log| - 1].Back? then log[|log| - 1].saved else log
  }

  /** `*state = copy`, where the copy was taken after `saved` */
  function Return(log: seq<Op>, saved: seq<Op>): (r: seq<Op>)
    ensures Base(log) == Base(saved) ==> r == log
    ensures Base(r) == Base(saved)
  {
    if Base(log) == Base(saved) then log else log + [Back(Base(saved))]
  }

  lemma PlayStep(log: seq<Op>, op: Op, cells: seq<char>)
    ensures op.Write? ==> Play(log + [op], cells) == Play(log, cells).Emit(op.str)
    ensures op.Repeat? ==> Play(log + [op], cells) == Play(log, cells).Repeat()
    ensures op.Cut? ==> Play(log + [op], cells) == Play(log, cells).Cancel()
    ensures op.Back? ==> Play(log + [op], cells) == Play(op.saved, cells).(cells := Play(log, cells).cells)
  {
    assert (log + [op])[..|log|] == log;
  }

  lemma PlayBase(log: seq<Op>, cells: seq<char>)
    ensures Play(log, cells) == Play(Base(log), cells).(cells := Play(log, cells).cells)
  {}

  lemma PlayReturn(log: seq<Op>, saved: seq<Op>, cells: seq<char>)
    ensures Play(Return(log, saved), cells) == Play(saved, cells).(cells := Play(log, cells).cells)
  {
    hide Play;
    PlayBase(log, cells);
    PlayBase(saved, cells);
    PlayStep(log, Back(Base(saved)), cells);
  }
}
