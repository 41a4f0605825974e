/** How the buffer follows an output without a size limit: while the text keeps two cells away from the
    end, the buffer holds it exactly; and whatever happens closer to the end, the cells before the last
    three are never damaged. */
module DemangleFit {
  import opened Lists
  import opened MangledText
  import opened DemangleBuffer

  /** An output without a size limit.
      - `need`: the length of the longest text so far on the way to the current text;
      - `waste`: the length of the longest text in an attempt that was abandoned after it had got
        longer than any text before it;
      - `ended`: a NUL was written right behind the text, and nothing there since. */
  datatype Ideal = Ideal(text: string, prev: NameRef, need: nat, waste: nat, ended: bool)

  /** There is room for a text of the given length and its NUL. */
  ghost predicate Fits(b: Buffer, length: nat) { length == 0 || length < |b.cells| }

  /** The buffer is exactly at the end of the text. */
  ghost predicate Exact(t: Ideal, b: Buffer)
  {
    b.cur == |t.text| && b.name == t.prev && !b.overflowed
  }

  /** The text has come to the last two cells or beyond, and the cursor stays in the last three. */
  ghost predicate Drifted(t: Ideal, b: Buffer)
  {
    && |t.text| + 2 >= |b.cells| && b.cur + 3 >= |b.cells|
    && (b.overflowed || |t.text| <= b.cur || (b.cur + 1 == |b.cells| && |t.text| <= |b.cells|))
  }

  /** The cells before the last three hold the text, and its NUL. */
  ghost predicate Kept(t: Ideal, b: Buffer)
  {
    && (forall k :: 0 <= k < |t.text| && k + 3 < |b.cells| ==> b.cells[k] == t.text[k])
    && (t.ended && |t.text| + 2 < |b.cells| ==> b.cells[|t.text|] == '\0')
  }

  /** If all abandoned attempts had room, nothing at all is damaged. */
  ghost predicate Whole(t: Ideal, b: Buffer)
  {
    && (Fits(b, t.waste) ==> b.overflowed == !Fits(b, t.need))
    && (Fits(b, t.waste) && Fits(b, t.need) ==>
        && Exact(t, b) && |t.text| <= |b.cells| && b.cells[..|t.text|] == t.text
        && (t.ended ==> |t.text| < |b.cells| && b.cells[|t.text|] == '\0'))
  }

  ghost predicate Sound(t: Ideal)
  {
    && (t.prev.Span? ==>
        && 0 < t.prev.length && t.prev.start + t.prev.length <= |t.text|
        && (IsAlpha(t.text[t.prev.start]) || t.text[t.prev.start] == '_'))
    && |t.text| <= t.need
  }

  ghost predicate Follows(t: Ideal, b: Buffer)
  {
    && b.Bounded() && b.name.Length() == t.prev.Length()
    && (Exact(t, b) || Drifted(t, b))
    && Kept(t, b) && Whole(t, b)
  }

  // ---------- the operations on an output without a limit ----------

  /** Append() on a string that is not empty. */
  function Push(t: Ideal, str: string): Ideal
  {
    t.(text := t.text + str, need := Max(t.need, |t.text| + |str|), ended := true)
  }

  /** A space keeps a '<' apart from one that ends the output. */
  function Spaced(t: Ideal, c: char): Ideal
  {
    if c == '<' && t.text != "" && t.text[|t.text| - 1] == '<' then Push(t, " ") else t
  }

  function Named(t: Ideal, c: char, length: nat): Ideal
  {
    if IsAlpha(c) || c == '_' then t.(prev := Span(|t.text|, length)) else t
  }

  /** MaybeAppendWithLength() with append on */
  function Emit(t: Ideal, str: string): Ideal
  {
    if str == "" then t else Push(Named(Spaced(t, str[0]), str[0], |str|), str)
  }

  /** The text of the last identifier. */
  function NameText(t: Ideal): string
  {
    if t.prev.Span? && t.prev.start + t.prev.length <= |t.text|
    then t.text[t.prev.start..t.prev.start + t.prev.length] else ""
  }

  /** MaybeCancelLastSeparator() with append on and inside a nested name */
  function Cancel(t: Ideal): Ideal
  {
    if |t.text| >= 2 then t.(text := t.text[..|t.text| - 2], ended := true) else t
  }

  /** `*state = copy`, where the copy was taken in `t` and the attempt had come to `a`. */
  function Undo(t: Ideal, a: Ideal): Ideal
  {
    t.(waste := if a.need > t.need then Max(a.waste, a.need) else a.waste, ended := a.ended && |a.text| == |t.text|)
  }

  // ---------- appending ----------

  /** What `str` is to the text, `actual` is to the buffer: they agree as far as the text matters. */
  ghost predicate Agree(t: Ideal, b: Buffer, str: string, actual: string)
  {
    && |actual| == |str| > 0 && actual[0] == str[0]
    && (forall i :: 0 <= i < |str| && |t.text| + i + 2 < |b.cells| ==> actual[i] == str[i])
    && (Fits(b, t.waste) && Fits(b, t.need) ==> actual == str)
  }

  function Pad(t: Ideal, c: char): string
  {
    if c == '<' && t.text != "" && t.text[|t.text| - 1] == '<' then " " else ""
  }

  function BufferPad(b: Buffer, c: char): string
  {
    if c == '<' && 0 < b.cur && b.Cell(b.cur - 1) == '<' then " " else ""
  }

  lemma EmitText(t: Ideal, str: string)
    requires str != ""
    ensures var r := Emit(t, str);
      && r.text == t.text + (Pad(t, str[0]) + str) && r.need == Max(t.need, |r.text|) && r.waste == t.waste && r.ended
      && r.prev == Named(Spaced(t, str[0]), str[0], |str|).prev
  {
    assert t.text + " " + str == t.text + (" " + str) && t.text + str == t.text + ("" + str);
  }

  /** `c` is what becomes of the buffer when the characters `all` are appended. */
  ghost predicate Appended(b: Buffer, all: string, c: Buffer)
  {
    && |c.cells| == |b.cells| && c.Bounded()
    && c.cur == b.cur + Min(|all|, b.Room()) && c.overflowed == (b.overflowed || |all| > b.Room())
    && (forall k :: 0 <= k < b.cur ==> c.cells[k] == b.cells[k])
    && (forall k :: b.cur <= k < c.cur ==> c.cells[k] == all[k - b.cur])
    && (!c.overflowed ==> c.cur < |c.cells| && c.cells[c.cur] == '\0')
  }

  lemma BufferEmit(b: Buffer, str: string)
    requires b.Bounded() && str != ""
    ensures Appended(b, BufferPad(b, str[0]) + str, b.Emit(str))
    ensures b.Emit(str).name == b.Spaced(str[0]).Named(str[0], |str|).name
  {
    hide Buffer.Append;
    if BufferPad(b, str[0]) != "" { b.AppendCells(" "); }
    b.Spaced(str[0]).Named(str[0], |str|).AppendCells(str);
  }

  lemma LastChar(t: Ideal, b: Buffer, c: char)
    requires Follows(t, b) && Exact(t, b) && (|t.text| + 2 < |b.cells| || (Fits(b, t.waste) && Fits(b, t.need)))
    ensures Pad(t, c) == BufferPad(b, c)
  {
    if Fits(b, t.waste) && Fits(b, t.need) && |t.text| > 0 {
      assert b.cells[..|t.text|][|t.text| - 1] == t.text[|t.text| - 1];
    }
  }

  /** What happens once the text is close to the end. */
  lemma DriftStep(t: Ideal, b: Buffer, r: Ideal, c: Buffer, n: nat)
    requires Follows(t, b) && |t.text| + 2 >= |b.cells| && |c.cells| == |b.cells| && c.Bounded() && n > 0
    requires t.text <= r.text && |r.text| <= |t.text| + n + 1 && |t.text| + n <= |r.text|
    requires forall k :: 0 <= k < b.cur ==> c.cells[k] == b.cells[k]
    requires b.cur <= c.cur && (!c.overflowed ==> !b.overflowed && b.cur + n <= c.cur)
    ensures Drifted(r, c) && Kept(r, c)
  {
    assert b.cur + 3 >= |b.cells|;
  }

  lemma ExactStep(t: Ideal, b: Buffer, str: string, actual: string, c: Buffer)
    requires Sound(t) && Follows(t, b) && Agree(t, b, str, actual) && Exact(t, b)
    requires Appended(b, Pad(t, str[0]) + actual, c)
    requires c.name == b.Spaced(str[0]).Named(str[0], |str|).name
    requires |t.text| + 2 < |b.cells| || (Fits(b, t.waste) && Fits(b, t.need))
    ensures Follows(Emit(t, str), c)
  {
    LastChar(t, b, str[0]);
    EmitText(t, str);
    var r, more := Emit(t, str), Pad(t, str[0]) + str;
    var all := Pad(t, str[0]) + actual;
    assert r.text == t.text + more;
    assert Fits(b, t.waste) && Fits(b, t.need) ==> all == more;
    hide Emit, Pad, BufferPad;
    KeptStep(t, b, r, c, more, all);
    WholeStep(t, b, r, c, more);
  }

  lemma KeptStep(t: Ideal, b: Buffer, r: Ideal, c: Buffer, more: string, all: string)
    requires Kept(t, b) && b.Bounded() && b.cur == |t.text| && |c.cells| == |b.cells|
    requires r.text == t.text + more && |all| == |more|
    requires forall i :: 0 <= i < |more| && |t.text| + i + 3 < |b.cells| ==> all[i] == more[i]
    requires c.cur == b.cur + Min(|all|, b.Room())
    requires forall k :: 0 <= k < b.cur ==> c.cells[k] == b.cells[k]
    requires forall k :: b.cur <= k < c.cur ==> c.cells[k] == all[k - b.cur]
    requires c.overflowed == (|all| > b.Room()) && (!c.overflowed ==> c.cur < |c.cells| && c.cells[c.cur] == '\0')
    ensures Kept(r, c)
  {
    forall k | 0 <= k < |r.text| && k + 3 < |c.cells|
      ensures c.cells[k] == r.text[k]
    {
      if k >= b.cur { assert c.cells[k] == all[k - b.cur] == more[k - b.cur]; }
    }
  }

  lemma WholeStep(t: Ideal, b: Buffer, r: Ideal, c: Buffer, more: string)
    requires Sound(t) && Whole(t, b) && b.Bounded() && Exact(t, b) && |c.cells| == |b.cells| && more != ""
    requires r.text == t.text + more && r.need == Max(t.need, |r.text|) && r.waste == t.waste
    requires c.cur == b.cur + Min(|more|, b.Room()) && c.overflowed == (|more| > b.Room())
    requires forall k :: 0 <= k < b.cur ==> c.cells[k] == b.cells[k]
    requires Fits(b, t.waste) && Fits(b, t.need) ==> forall k :: b.cur <= k < c.cur ==> c.cells[k] == more[k - b.cur]
    requires !c.overflowed ==> c.cur < |c.cells| && c.cells[c.cur] == '\0'
    requires c.cur == |r.text| ==> c.name == r.prev
    ensures Whole(r, c)
  {
    if Fits(b, r.waste) && Fits(b, r.need) {
      assert b.cells[..|t.text|] == t.text;
      forall k | 0 <= k < |r.text| ensures c.cells[..|r.text|][k] == r.text[k] {
        if k < b.cur { assert c.cells[k] == b.cells[..|t.text|][k]; }
      }
    }
  }

  lemma EmitFollows(t: Ideal, b: Buffer, str: string)
    requires Sound(t) && Follows(t, b)
    ensures Follows(Emit(t, str), b.Emit(str))
  {
    if str == "" {
    } else if Exact(t, b) && (|t.text| + 2 < |b.cells| || (Fits(b, t.waste) && Fits(b, t.need))) {
      BufferEmit(b, str);
      LastChar(t, b, str[0]);
      ExactStep(t, b, str, str, b.Emit(str));
    } else {
      EmitText(t, str);
      BufferEmit(b, str);
      DriftStep(t, b, Emit(t, str), b.Emit(str), |str|);
    }
  }

  lemma EmitSound(t: Ideal, str: string)
    requires Sound(t)
    ensures Sound(Emit(t, str)) && t.text <= Emit(t, str).text && t.need <= Emit(t, str).need
  {
    if str != "" { EmitText(t, str); }
  }

  // ---------- the last identifier ----------

  lemma {:induction false} CopyShape(b: Buffer, start: nat, n: nat)
    requires b.Bounded() && (n == 0 ==> b.overflowed || b.cur > 0)
    ensures var r := b.Copy(start, n);
      && r.cur == b.cur + Min(n, b.Room()) && r.overflowed == (b.overflowed || n > b.Room())
      && (forall k :: 0 <= k < b.cur ==> r.cells[k] == b.cells[k])
      && (start + n <= b.cur ==> forall k :: b.cur <= k < r.cur ==> r.cells[k] == b.cells[start + k - b.cur])
      && (!r.overflowed ==> r.cur < |r.cells| && r.cells[r.cur] == '\0')
    decreases n
  {
    if n > 0 && b.cur + 1 < |b.cells| {
      CopyShape(b.(cells := b.cells[b.cur := b.Cell(start)], cur := b.cur + 1), start + 1, n - 1);
    }
  }

  lemma NameTextIs(t: Ideal, b: Buffer)
    requires Sound(t) && t.prev.Span? && t.prev.start + t.prev.length <= |b.cells|
    requires Kept(t, b) && Whole(t, b) && Exact(t, b)
    ensures Agree(t, b, NameText(t), b.cells[t.prev.start..t.prev.start + t.prev.length]) ||
            !(|t.text| + 2 < |b.cells| || (Fits(b, t.waste) && Fits(b, t.need)))
  {
    var start, n := t.prev.start, t.prev.length;
    var name, actual := NameText(t), b.cells[start..start + n];
    forall i | 0 <= i < n && |t.text| + i + 2 < |b.cells|
      ensures actual[i] == name[i]
    {
      assert b.cells[start + i] == t.text[start + i];
    }
    if Fits(b, t.waste) && Fits(b, t.need) {
      assert b.cells[..|t.text|][start..start + n] == actual;
    }
  }

  /** Copying the last identifier from the buffer is appending it, as long as it lies before the cursor. */
  lemma RepeatAppends(b: Buffer, actual: string)
    requires b.Bounded() && b.name.Span? && actual != "" && b.name.length == |actual|
    requires b.name.start + b.name.length <= b.cur && b.cells[b.name.start..b.name.start + |actual|] == actual
    requires actual[0] != '<'
    ensures Appended(b, actual, b.Repeat())
    ensures b.Repeat().name == b.Spaced(actual[0]).Named(actual[0], |actual|).name
  {
    hide Buffer.Copy;
    assert b.Cell(b.name.start) == actual[0];
    CopiedName(b.Named(actual[0], |actual|), b.name.start, actual);
  }

  lemma CopiedName(b: Buffer, start: nat, actual: string)
    requires b.Bounded() && actual != "" && start + |actual| <= b.cur <= |b.cells|
    requires b.cells[start..start + |actual|] == actual
    ensures var r := b.Copy(start, |actual|);
      && r.cur == b.cur + Min(|actual|, b.Room()) && r.overflowed == (b.overflowed || |actual| > b.Room())
      && (forall k :: 0 <= k < b.cur ==> r.cells[k] == b.cells[k])
      && (forall k :: b.cur <= k < r.cur ==> r.cells[k] == actual[k - b.cur])
      && (!r.overflowed ==> r.cur < |r.cells| && r.cells[r.cur] == '\0')
  {
    hide Buffer.Copy;
    CopyShape(b, start, |actual|);
    var r := b.Copy(start, |actual|);
    forall k | b.cur <= k < r.cur ensures r.cells[k] == actual[k - b.cur] {
      assert r.cells[k] == b.cells[start + k - b.cur];
    }
  }

  lemma RepeatDrifts(b: Buffer)
    requires b.Bounded() && b.name.Length() > 0
    ensures var c := b.Repeat();
      && |c.cells| == |b.cells| && c.Bounded() && b.cur <= c.cur && c.name.Length() == b.name.Length()
      && (forall k :: 0 <= k < b.cur ==> c.cells[k] == b.cells[k])
      && (!c.overflowed ==> !b.overflowed && b.cur + b.name.length <= c.cur)
  {
    hide Buffer.Append, Buffer.Copy;
    var first := b.Cell(b.name.start);
    if BufferPad(b, first) != "" { b.AppendCells(" "); }
    var s := b.Spaced(first);
    CopyShape(s.Named(s.Cell(b.name.start), b.name.length), b.name.start, b.name.length);
  }

  lemma RepeatExact(t: Ideal, b: Buffer)
    requires Sound(t) && Follows(t, b) && Exact(t, b) && t.prev.Span?
    requires |t.text| + 2 < |b.cells| || (Fits(b, t.waste) && Fits(b, t.need))
    ensures Follows(Emit(t, NameText(t)), b.Repeat())
  {
    hide Buffer.Repeat;
    var name, actual := NameText(t), b.cells[b.name.start..b.name.start + b.name.length];
    NameTextIs(t, b);
    assert name[0] == t.text[t.prev.start];
    RepeatAppends(b, actual);
    assert Pad(t, name[0]) + actual == actual;
    hide Follows, Agree, Appended, Emit, NameText;
    ExactStep(t, b, name, actual, b.Repeat());
  }

  lemma RepeatFollows(t: Ideal, b: Buffer)
    requires Sound(t) && Follows(t, b)
    ensures Follows(Emit(t, NameText(t)), b.Repeat())
  {
    hide Buffer.Repeat, Whole;
    var name := NameText(t);
    if t.prev.Length() == 0 {
      NothingToRepeat(b);
    } else if Exact(t, b) && (|t.text| + 2 < |b.cells| || (Fits(b, t.waste) && Fits(b, t.need))) {
      RepeatExact(t, b);
    } else {
      RepeatDrifts(b);
      EmitText(t, name);
      DriftStep(t, b, Emit(t, name), b.Repeat(), |name|);
      DriftIsWhole(t, b, Emit(t, name), b.Repeat());
    }
  }

  /** Close to the end the last claim of Whole is void, or the buffer is exact. */
  lemma DriftIsWhole(t: Ideal, b: Buffer, r: Ideal, c: Buffer)
    requires Follows(t, b) && !(Exact(t, b) && (|t.text| + 2 < |b.cells| || (Fits(b, t.waste) && Fits(b, t.need))))
    requires |c.cells| == |b.cells| && r.waste == t.waste && r.need >= t.need && (b.overflowed ==> c.overflowed)
    ensures Whole(r, c)
  {}

  lemma NothingToRepeat(b: Buffer)
    requires b.name.Length() == 0
    ensures b.Repeat() == b
  {}

  // ---------- cancelling and going back ----------

  /** A separator was just appended: either it is in the buffer, or the buffer is full. */
  ghost predicate Separated(t: Ideal, b: Buffer)
  {
    |t.text| >= 2 && (Exact(t, b) || (b.overflowed && b.cur + 1 >= |b.cells| && |t.text| >= |b.cells|))
  }

  lemma SeparatorAppended(t: Ideal, b: Buffer)
    requires Sound(t) && Follows(t, b)
    ensures Separated(Emit(t, "::"), b.Emit("::"))
  {
    EmitText(t, "::");
    BufferEmit(b, "::");
  }

  lemma CancelFollows(t: Ideal, b: Buffer)
    requires Sound(t) && Follows(t, b) && Separated(t, b)
    requires t.prev.Span? ==> t.prev.start + t.prev.length + 2 <= |t.text|
    ensures Follows(Cancel(t), b.Cancel())
  {
    var r, c := Cancel(t), b.Cancel();
    if Fits(b, t.waste) && Fits(b, t.need) {
      assert c.cells[..|r.text|] == b.cells[..|t.text|][..|r.text|];
    }
  }

  lemma UndoFollows(t: Ideal, b: Buffer, a: Ideal, c: Buffer)
    requires Follows(t, b) && Follows(a, c) && |c.cells| == |b.cells|
    requires t.text <= a.text && t.need <= a.need && t.waste <= a.waste
    ensures Follows(Undo(t, a), b.(cells := c.cells))
  {
    if Fits(c, a.waste) && Fits(c, a.need) {
      assert c.cells[..|t.text|] == c.cells[..|a.text|][..|t.text|];
    }
  }

  // ---------- what a caller sees ----------

  /** With two cells to spare behind the text and its NUL, the buffer holds both.  In any case all but the
      last three cells are right, and without an overflow the text is at most as long as the buffer. */
  lemma Fitting(t: Ideal, b: Buffer)
    requires Sound(t) && Follows(t, b)
    ensures |t.text| + 2 < |b.cells| ==>
      !b.overflowed && t.text <= b.cells && (t.ended ==> b.cells[|t.text|] == '\0')
    ensures !b.overflowed ==> |t.text| <= |b.cells|
    ensures forall k :: 0 <= k < |t.text| && k + 3 < |b.cells| ==> b.cells[k] == t.text[k]
    ensures Fits(b, t.waste) ==>
      && (!b.overflowed <==> Fits(b, t.need))
      && (!b.overflowed ==> t.text <= b.cells && (t.ended ==> |t.text| < |b.cells| && b.cells[|t.text|] == '\0'))
  {}
}
