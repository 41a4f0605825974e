/** The demangler itself: parsers that share one mutable state, write into a caller's buffer as
    they go, and save and restore the state to backtrack. */
module Demangling {
  import opened Lists
  import opened MangledText
  import opened DemangleGrammar
  import opened DemangleBuffer
  import opened DemangleOutput
  import opened DemangleTables
  import Ends = DemangleEnds
  import Fit = DemangleFit

  /** The C struct State, without the pointers that never change.  Pointers into the mangled name
      and into the output are kept as indices. */
  datatype State = State(cur: nat, outCur: nat, prev: NameRef, nestLevel: int, append: bool, overflowed: bool)

  class Demangler {
    const g: Grammar
    /** The output buffer: the C pointers out_begin and out_end are its ends. */
    const buf: array<char>

    var st: State
    /** The output without a limit, and what has been done to the buffer since it held `start`. */
    ghost var o: Out
    ghost const start: seq<char>

    constructor (g: Grammar, buf: array<char>)
      ensures Valid() && this.g == g && this.buf == buf && start == buf[..]
      ensures st.cur == 0 && o == INITIAL
    {
      this.g, this.buf, start := g, buf, buf[..];
      st := State(0, 0, NoName, -1, true, false);
      o := INITIAL;
    }

    /** The buffer, with the fields of the state that go with it. */
    ghost function Now(): Buffer
      reads this`st, buf
    {
      Buffer(buf[..], st.outCur, st.prev, st.overflowed)
    }

    /** A copy of the state that was taken in `o`. */
    ghost predicate Saved(copy: State, o: Out)
    {
      var b := Play(o.log, start);
      && copy.append == o.append && copy.nestLevel == o.nest
      && copy.outCur == b.cur && copy.prev == b.name && copy.overflowed == b.overflowed
    }

    /** The buffer is what the operations so far have made of it. */
    ghost predicate Valid()
      reads this, buf
    {
      && st.cur <= |g.text|
      && st.append == o.append && st.nestLevel == o.nest
      && Now() == Play(o.log, start)
    }

    /** Only the cursor has moved. */
    twostate predicate Silent()
      reads this
    {
      st == old(st).(cur := st.cur) && o == old(o)
    }

    /** A parser did what `r` says; when it returned false, it left the whole state as it was except
        that the cursor is at `back`.  With appending off it wrote nothing. */
    twostate predicate FollowsTo(ok: bool, r: Step, back: nat)
      reads this
    {
      && (ok <==> r.at.Accept?)
      && o == r.out
      && (ok ==> st.cur == r.at.end)
      && (!ok ==> st == old(st).(cur := back))
      && (!old(st.append) ==> Silent())
    }

    twostate predicate Follows(ok: bool, r: Step)
      reads this
    {
      FollowsTo(ok, r, old(st.cur))
    }

    /** A parser that never writes did what `at` says. */
    twostate predicate MovesTo(ok: bool, at: Outcome, back: nat)
      reads this
    {
      && (ok <==> at.Accept?)
      && st.cur == (if ok then at.end else back)
      && Silent()
    }

    twostate predicate Moves(ok: bool, at: Outcome)
      reads this
    {
      MovesTo(ok, at, old(st.cur))
    }

    // ---------- saving and restoring ----------

    /** `*state = copy`.  The buffer is not restored. */
    method Restore(copy: State, ghost o0: Out)
      requires Valid() && Saved(copy, o0) && copy.cur <= |g.text|
      modifies this`st, this`o
      ensures Valid() && st == copy && o == Undo(o0, old(o))
    {
      hide Play, Return;
      PlayReturn(o.log, o0.log, start);
      st := copy;
      o := Undo(o0, o);
    }

    /** `*state = copy` when only the cursor has moved. */
    method Rewind(copy: State)
      requires Valid() && st == copy.(cur := st.cur) && copy.cur <= |g.text|
      modifies this`st
      ensures Valid() && st == copy
    {
      st := copy;
    }

    method DisableAppend()
      requires Valid()
      modifies this`st, this`o
      ensures Valid() && st == old(st).(append := false) && o == old(o).(append := false)
    {
      st := st.(append := false);
      o := o.(append := false);
    }

    method RestoreAppend(prevValue: bool)
      requires Valid()
      modifies this`st, this`o
      ensures Valid() && st == old(st).(append := prevValue) && o == old(o).(append := prevValue)
    {
      st := st.(append := prevValue);
      o := o.(append := prevValue);
    }

    /** EnterNestedName(), and LeaveNestedName() with the saved level. */
    method SetNestLevel(level: int)
      requires Valid()
      modifies this`st, this`o
      ensures Valid() && st == old(st).(nestLevel := level) && o == old(o).(nest := level)
    {
      st := st.(nestLevel := level);
      o := o.(nest := level);
    }

    method MaybeIncreaseNestLevel()
      requires Valid()
      modifies this`st, this`o
      ensures Valid() && o == Deepen(old(o)) && st == old(st).(nestLevel := o.nest)
    {
      if st.nestLevel > -1 {
        SetNestLevel(st.nestLevel + 1);
      }
    }

    // ---------- writing ----------

    /** The characters when n of those of `str` are in the buffer. */
    ghost function Filled(b: Buffer, str: string, n: nat): (r: seq<char>)
      requires n <= |str| && n <= b.Room()
      ensures |r| == |b.cells|
    {
      if n == 0 then b.cells else b.cells[..b.cur] + str[..n] + b.cells[b.cur + n..]
    }

    lemma FilledStep(b: Buffer, str: string, n: nat)
      requires n < |str| && n < b.Room()
      ensures Filled(b, str, n)[b.cur + n := str[n]] == Filled(b, str, n + 1)
    {
      assert str[..n + 1] == str[..n] + [str[n]];
    }

    /** `*out_cur = c` */
    method Put(c: char)
      requires st.outCur < buf.Length
      modifies buf
      ensures buf[..] == old(buf[..])[st.outCur := c]
    {
      buf[st.outCur] := c;
    }

    method Append(str: string)
      requires Now().Bounded() && str != ""
      modifies this`st, buf
      ensures Now() == old(Now()).Append(str)
      ensures st == old(st).(outCur := st.outCur, overflowed := st.overflowed)
    {
      hide Demangler.Filled;
      ghost var b := Now();
      var i := 0;
      assert Filled(b, str, 0) == b.cells by { FilledNone(b, str); }
      while i < |str|
        invariant i <= |str| && i <= b.Room() && b.Bounded() && |b.cells| == buf.Length
        invariant st == old(st).(outCur := b.cur + i) && buf[..] == Filled(b, str, i)
      {
        if st.outCur + 1 < buf.Length {  // + 1 for the NUL
          FilledStep(b, str, i);
          Put(str[i]);
          st := st.(outCur := st.outCur + 1);
          i := i + 1;
        } else {
          st := st.(overflowed := true);
          break;
        }
      }
      AppendIsFilled(b, str, i);
      if !st.overflowed {
        Put('\0');
      }
    }

    lemma FilledNone(b: Buffer, str: string)
      ensures Filled(b, str, 0) == b.cells
    {}

    lemma AppendIsFilled(b: Buffer, str: string, n: nat)
      requires b.Bounded() && str != "" && n == Min(|str|, b.Room())
      ensures b.cur + n <= |b.cells| && b.Append(str).cells ==
        if b.overflowed || n < |str| then Filled(b, str, n) else Filled(b, str, n)[b.cur + n := '\0']
    {}

    /** Avoid <<<. */
    method MaybeAppendSpace(c: char)
      requires Now().Bounded()
      modifies this`st, buf
      ensures Now() == old(Now()).Spaced(c)
      ensures st == old(st).(outCur := st.outCur, overflowed := st.overflowed)
    {
      if c == '<' && 0 < st.outCur && buf[st.outCur - 1] == '<' {
        Append(" ");
      }
    }

    method MaybeAppendWithLength(str: string, length: int)
      requires Valid() && length <= |str|
      modifies this, buf
      ensures Valid() && o == Emit(old(o), if length > 0 then str[..length] else "")
      ensures st == old(st).(outCur := st.outCur, prev := st.prev, overflowed := st.overflowed)
      ensures !old(st.append) ==> Silent()
    {
      hide Play, Buffer.Append, Buffer.Spaced;
      if st.append && length > 0 {
        ghost var b := Now();
        var text := str[..length];
        MaybeAppendSpace(str[0]);
        if IsAlpha(str[0]) || str[0] == '_' {
          st := st.(prev := Span(st.outCur, length));
        }
        Append(text);
        PlayStep(o.log, Write(text), start);
        o := Emit(o, text);
      }
    }

    /** MaybeAppendWithLength() on prev_name, which points into the output. */
    method MaybeAppendName()
      requires Valid()
      modifies this, buf
      ensures Valid() && o == EmitName(old(o))
      ensures st == old(st).(outCur := st.outCur, prev := st.prev, overflowed := st.overflowed)
      ensures !old(st.append) ==> Silent()
    {
      hide Play, Buffer.Append, Buffer.Spaced, Buffer.Copy;
      if st.append {
        PlayStep(o.log, Repeat, start);
        o := EmitName(o);
        if st.prev.Span? && st.prev.length > 0 {
          var name, length := st.prev.start, st.prev.length;
          MaybeAppendSpace(Cell(name));
          var first := Cell(name);
          if IsAlpha(first) || first == '_' {
            st := st.(prev := Span(st.outCur, length));
          }
          AppendFromBuffer(name, length);
        }
      }
    }

    /** The character at a place in the output. */
    function Cell(k: nat): (c: char)
      reads this`st, buf
      ensures c == Now().Cell(k)
    {
      if k < buf.Length then buf[k] else '\0'
    }

    /** Append() when the characters are in the buffer, and may be overwritten on the way. */
    method AppendFromBuffer(name: nat, length: nat)
      requires Now().Bounded() && length > 0
      modifies this`st, buf
      ensures Now() == old(Now()).Copy(name, length)
      ensures st == old(st).(outCur := st.outCur, overflowed := st.overflowed)
    {
      var i := 0;
      while i < length
        invariant i <= length && Now().Bounded() && (i > 0 ==> st.outCur < buf.Length)
        invariant old(Now()).Copy(name, length) == Now().Copy(name + i, length - i)
        invariant st == old(st).(outCur := st.outCur)
      {
        if st.outCur + 1 < buf.Length {
          Put(Cell(name + i));
          st := st.(outCur := st.outCur + 1);
          i := i + 1;
        } else {
          st := st.(overflowed := true);
          return;
        }
      }
      if !st.overflowed {
        Put('\0');
      }
    }

    method MaybeAppend(str: string)
      requires Valid()
      modifies this, buf
      ensures Valid() && o == Emit(old(o), str)
      ensures st == old(st).(outCur := st.outCur, prev := st.prev, overflowed := st.overflowed)
      ensures !old(st.append) ==> Silent()
    {
      assert str[..|str|] == str;
      MaybeAppendWithLength(str, |str|);
    }

    method MaybeAppendSeparator()
      requires Valid()
      modifies this, buf
      ensures Valid() && o == Separate(old(o))
      ensures st == old(st).(outCur := st.outCur, prev := st.prev, overflowed := st.overflowed)
      ensures !old(st.append) ==> Silent()
    {
      if st.nestLevel >= 1 {
        MaybeAppend("::");
      }
    }

    method MaybeCancelLastSeparator()
      requires Valid()
      modifies this, buf
      ensures Valid() && o == Cancel(old(o))
      ensures st == old(st).(outCur := st.outCur)
      ensures !old(st.append) ==> Silent()
    {
      if st.nestLevel >= 1 && st.append {
        PlayStep(o.log, Cut, start);
        o := Cancel(o);
        if st.outCur >= 2 {
          st := st.(outCur := st.outCur - 2);
          Put('\0');
        }
      }
    }

    // ---------- tokens ----------

    method ParseOneCharToken(token: char) returns (ok: bool)
      requires Valid() && token != '\0'
      modifies this`st
      ensures Valid() && Moves(ok, if g.At(old(st.cur)) == token then Accept(old(st.cur) + 1) else Reject)
    {
      if g.At(st.cur) == token {
        st := st.(cur := st.cur + 1);
        return true;
      }
      return false;
    }

    method ParseTwoCharToken(token0: char, token1: char) returns (ok: bool)
      requires Valid() && token0 != '\0' && token1 != '\0'
      modifies this`st
      ensures Valid() && Moves(ok, if g.At2(old(st.cur), token0, token1) then Accept(old(st.cur) + 2) else Reject)
    {
      if g.At(st.cur) == token0 && g.At(st.cur + 1) == token1 {
        st := st.(cur := st.cur + 2);
        return true;
      }
      return false;
    }

    method ParseCharClass(charClass: CString) returns (ok: bool)
      requires Valid()
      modifies this`st
      ensures Valid() && Moves(ok, if g.At(old(st.cur)) in charClass then Accept(old(st.cur) + 1) else Reject)
    {
      var p := 0;
      while p < |charClass|
        invariant p <= |charClass| && unchanged(this)
        invariant g.At(st.cur) !in charClass[..p]
      {
        if g.At(st.cur) == charClass[p] {
          st := st.(cur := st.cur + 1);
          return true;
        }
        p := p + 1;
      }
      return false;
    }

    /** <number>.  When there are no digits, the cursor stays behind an 'n' it has read. */
    method ParseNumber() returns (ok: bool, number: int)
      requires Valid()
      modifies this`st
      ensures Valid() && MovesTo(ok, g.Number(old(st.cur)), g.SignEnd(old(st.cur)))
      ensures ok ==> number == g.NumberValue(old(st.cur))
    {
      var sign := 1;
      var negative := ParseOneCharToken('n');
      if negative {
        sign := -1;
      }
      var p;
      p, number := ReadDigits(st.cur);
      if p != st.cur {
        st := st.(cur := p);
        return true, number * sign;
      }
      return false, 0;
    }

    /** The digit loop of ParseNumber. */
    method ReadDigits(start: nat) returns (p: nat, number: int)
      requires start <= |g.text|
      ensures p == g.RunEnd(start, Digits) && number == DecimalValue(g.text[start..p])
    {
      p := start;
      number := 0;
      while p < |g.text| && IsDigit(g.text[p])
        invariant start <= p <= |g.text|
        invariant g.RunEnd(start, Digits) == g.RunEnd(p, Digits)
        invariant number == DecimalValue(g.text[start..p])
      {
        assert g.text[start..p + 1][..p - start] == g.text[start..p];
        number := number * 10 + DigitValue(g.text[p]);
        p := p + 1;
      }
    }

    /** <number> and one more character.  When it fails, the cursor may have moved. */
    method ParseNumberThen(token: char) returns (ok: bool)
      requires Valid() && token != '\0'
      modifies this`st
      ensures Valid() && MovesTo(ok, g.Expect(g.Number(old(st.cur)), token), st.cur)
    {
      var value;
      ok, value := ParseNumber();
      if ok { ok := ParseOneCharToken(token); }
    }

    /** A literal's value and the closing 'E'.  When it fails, the cursor may have moved. */
    method ParseLiteralValue(float: bool) returns (ok: bool)
      requires Valid()
      modifies this`st
      ensures Valid()
      ensures var i := old(st.cur);
        MovesTo(ok, g.Expect(if float then g.Run(i, FloatChars) else g.Number(i), 'E'), st.cur)
    {
      if float {
        ok := ParseFloatNumber();
        if ok { ok := ParseOneCharToken('E'); }
      } else {
        ok := ParseNumberThen('E');
      }
    }

    method ParseFloatNumber() returns (ok: bool)
      requires Valid()
      modifies this`st
      ensures Valid() && Moves(ok, g.Run(old(st.cur), FloatChars))
    {
      var p := st.cur;
      while p < |g.text| && FloatChars.Has(g.text[p])
        invariant st.cur <= p <= |g.text|
        invariant g.RunEnd(st.cur, FloatChars) == g.RunEnd(p, FloatChars)
      {
        p := p + 1;
      }
      ok := p != st.cur;
      st := st.(cur := p);
    }

    method ParseSeqId() returns (ok: bool)
      requires Valid()
      modifies this`st
      ensures Valid() && Moves(ok, g.Run(old(st.cur), SeqIdChars))
    {
      var p := st.cur;
      while p < |g.text| && SeqIdChars.Has(g.text[p])
        invariant st.cur <= p <= |g.text|
        invariant g.RunEnd(st.cur, SeqIdChars) == g.RunEnd(p, SeqIdChars)
      {
        p := p + 1;
      }
      ok := p != st.cur;
      st := st.(cur := p);
    }

    lemma Identifier(cur: nat, length: nat)
      requires cur + length <= |g.text|
      ensures Shown(g.text[cur..cur + length]) ==
        if length > |AnonymousPrefix| && AnonymousPrefix <= g.text[cur..] then "(anonymous namespace)"
        else g.text[cur..][..length]
    {
      assert g.text[cur..][..length] == g.text[cur..cur + length];
      if length > |AnonymousPrefix| {
        assert g.text[cur..][..|AnonymousPrefix|] == g.text[cur..cur + length][..|AnonymousPrefix|];
      }
    }

    lemma EmitNothing(o: Out)
      ensures Emit(o, "") == o
    {}

    method Advance(length: int)
      requires Valid() && 0 <= st.cur + length <= |g.text|
      modifies this`st
      ensures Valid() && st == old(st).(cur := old(st.cur) + length)
    {
      st := st.(cur := st.cur + length);
    }

    /** The part of ParseIdentifier() that writes. */
    method AppendIdentifier(length: int)
      requires Valid() && 0 <= st.cur + length <= |g.text|
      modifies this, buf
      ensures Valid()
      ensures o == if length >= 0 then Emit(old(o), Shown(g.text[old(st.cur)..old(st.cur) + length])) else old(o)
      ensures st == old(st).(outCur := st.outCur, prev := st.prev, overflowed := st.overflowed)
      ensures !old(st.append) ==> Silent()
    {
      EmitNothing(o);
      hide Emit, Play;
      if length >= 0 {
        Identifier(st.cur, length);
      }
      hide Shown;
      if length > |AnonymousPrefix| && AnonymousPrefix <= g.text[st.cur..] {
        MaybeAppend("(anonymous namespace)");
      } else {
        assert length == 0 ==> g.text[st.cur..][..length] == "";
        MaybeAppendWithLength(g.text[st.cur..], length);
      }
    }

    /** <identifier> of the given length.  A negative length other than -1 moves the cursor back. */
    method ParseIdentifier(length: int) returns (ok: bool)
      requires Valid() && 0 <= st.cur + length
      modifies this, buf
      ensures Valid()
      ensures ok <==> length != -1 && old(st.cur) + length <= |g.text|
      ensures ok ==> st.cur == old(st.cur) + length
      ensures ok ==> o == if length >= 0 then Emit(old(o), Shown(g.text[old(st.cur)..old(st.cur) + length])) else old(o)
      ensures st == old(st).(cur := st.cur, outCur := st.outCur, prev := st.prev, overflowed := st.overflowed)
      ensures !ok || !old(st.append) ==> Silent()
      ensures !ok ==> st == old(st)
    {
      if length == -1 || st.cur + length > |g.text| {
        return false;
      }
      hide Emit, Shown, Play;
      AppendIdentifier(length);
      Advance(length);
      return true;
    }

    method ParseSourceName() returns (ok: bool)
      requires Valid() && !g.SourceName(st.cur).Stray?
      modifies this, buf
      ensures Valid() && Follows(ok, WriteSourceName(g, old(st.cur), old(o)))
    {
      hide Emit, Grammar.Number, Grammar.NumberValue, Shown;
      var copy := st;
      var length;
      ok, length := ParseNumber();
      if ok { ok := ParseIdentifier(length); }
      if ok {
        return;
      }
      Rewind(copy);
    }

    method ParseAbiTag() returns (ok: bool)
      requires Valid() && !g.AbiTag(st.cur).Stray? && !st.append
      modifies this, buf
      ensures Valid()
      ensures MovesTo(ok, g.AbiTag(old(st.cur)), if g.At(old(st.cur)) == 'B' then old(st.cur) + 1 else old(st.cur))
    {
      ok := ParseOneCharToken('B');
      if ok { ok := ParseSourceName(); }
    }

    /** OneOrMore(ParseAbiTag) */
    method OneOrMoreAbiTags() returns (ok: bool)
      requires Valid() && !g.AbiTags(st.cur).Stray? && !st.append
      modifies this, buf
      ensures Valid()
      ensures MovesTo(ok, g.AbiTags(old(st.cur)), if g.At(old(st.cur)) == 'B' then old(st.cur) + 1 else old(st.cur))
    {
      ok := ParseAbiTag();
      if ok {
        var more := true;
        while more
          invariant Valid() && Silent() && old(st.cur) < st.cur
          invariant g.AbiTags(old(st.cur)) == if more then g.MoreAbiTags(st.cur) else Accept(st.cur)
          decreases more, |g.text| - st.cur
        {
          more := ParseAbiTag();
        }
      }
    }

    method ParseAbiTags() returns (ok: bool)
      requires Valid() && !g.AbiTags(st.cur).Stray?
      modifies this, buf
      ensures Valid() && Moves(ok, g.AbiTags(old(st.cur)))
    {
      var copy := st;
      ghost var o0 := o;
      DisableAppend();
      ok := OneOrMoreAbiTags();
      if ok {
        RestoreAppend(copy.append);
        return;
      }
      Restore(copy, o0);
    }

    method ParseDiscriminator() returns (ok: bool)
      requires Valid()
      modifies this`st
      ensures Valid() && Moves(ok, g.Discriminator(old(st.cur)))
    {
      var copy := st;
      ok := ParseOneCharToken('_');
      if ok {
        var value;
        ok, value := ParseNumber();
      }
      if ok {
        return;
      }
      Rewind(copy);
    }

    /** Optional(ParseDiscriminator()) */
    method SkipDiscriminator()
      requires Valid()
      modifies this`st
      ensures Valid() && st == old(st).(cur := g.AfterDiscriminator(old(st.cur)))
    {
      var _ := ParseDiscriminator();
    }

    method ParseLocalSourceName() returns (ok: bool)
      requires Valid() && !g.LocalSourceName(st.cur).Stray?
      modifies this, buf
      ensures Valid() && Follows(ok, WriteLocalSourceName(g, old(st.cur), old(o)))
    {
      hide Emit, Shown, Grammar.SourceName, Grammar.AfterDiscriminator;
      var copy := st;
      ok := ParseOneCharToken('L');
      if ok { ok := ParseSourceName(); }
      if ok {
        SkipDiscriminator();
      } else {
        Rewind(copy);
      }
    }

    method ParseVOffset() returns (ok: bool)
      requires Valid()
      modifies this`st
      ensures Valid() && Moves(ok, g.VOffset(old(st.cur)))
    {
      var copy := st;
      var value;
      ok, value := ParseNumber();
      if ok { ok := ParseOneCharToken('_'); }
      if ok {
        ok, value := ParseNumber();
      }
      if ok {
        return;
      }
      Rewind(copy);
    }

    /** <nv-offset>, and so like ParseNumber when it fails */
    method ParseNVOffset() returns (ok: bool)
      requires Valid()
      modifies this`st
      ensures Valid() && MovesTo(ok, g.Number(old(st.cur)), g.SignEnd(old(st.cur)))
    {
      var value;
      ok, value := ParseNumber();
    }

    method ParseCallOffset() returns (ok: bool)
      requires Valid()
      modifies this`st
      ensures Valid() && Moves(ok, g.CallOffset(old(st.cur)))
    {
      hide Grammar.Number, Grammar.VOffset;
      ok := ParseNonVirtualCallOffset();
      if !ok { ok := ParseVirtualCallOffset(); }
    }

    /** h <nv-offset> _ */
    method ParseNonVirtualCallOffset() returns (ok: bool)
      requires Valid()
      modifies this`st
      ensures Valid()
      ensures Moves(ok, if g.At(old(st.cur)) == 'h' then g.Expect(g.Number(old(st.cur) + 1), '_') else Reject)
    {
      var copy := st;
      ok := ParseOneCharToken('h');
      if ok { ok := ParseNVOffset(); }
      if ok { ok := ParseOneCharToken('_'); }
      if !ok { Rewind(copy); }
    }

    /** v <v-offset> _ */
    method ParseVirtualCallOffset() returns (ok: bool)
      requires Valid()
      modifies this`st
      ensures Valid()
      ensures Moves(ok, if g.At(old(st.cur)) == 'v' then g.Expect(g.VOffset(old(st.cur) + 1), '_') else Reject)
    {
      hide Grammar.Number;
      var copy := st;
      ok := ParseOneCharToken('v');
      if ok { ok := ParseVOffset(); }
      if ok { ok := ParseOneCharToken('_'); }
      if !ok { Rewind(copy); }
    }

    /** A letter of a constructor or destructor name and its digit. */
    method ParseLetterAndDigit(letter: char, digits: CString) returns (ok: bool)
      requires Valid() && letter != '\0'
      modifies this`st
      ensures Valid()
      ensures var i := old(st.cur);
        Moves(ok, if g.At(i) == letter && g.At(i + 1) in digits then Accept(i + 2) else Reject)
    {
      var copy := st;
      ok := ParseOneCharToken(letter);
      if ok { ok := ParseCharClass(digits); }
      if !ok { Rewind(copy); }
    }

    method ParseCtorDtorName() returns (ok: bool)
      requires Valid()
      modifies this, buf
      ensures Valid() && Follows(ok, WriteCtorDtorName(g, old(st.cur), old(o)))
    {
      ok := ParseLetterAndDigit('C', "123");
      if ok {
        MaybeAppendName();
        return;
      }
      ok := ParseLetterAndDigit('D', "012");
      if ok {
        MaybeAppend("~");
        MaybeAppendName();
      }
    }

    method ParseCVQualifiers() returns (ok: bool)
      requires Valid()
      modifies this`st
      ensures Valid() && Moves(ok, g.CvQualifiers(old(st.cur)))
    {
      var r := ParseOneCharToken('r');
      var v := ParseOneCharToken('V');
      var k := ParseOneCharToken('K');
      return r || v || k;
    }

    /** The table lookup of ParseBuiltinType. */
    method ParseAbbreviatedType() returns (ok: bool)
      requires Valid()
      modifies this, buf
      ensures Valid()
      ensures var found := FindChar(g.builtins, 0, g.At(old(st.cur)));
        Follows(ok, if old(st.cur) < |g.text| && found.Some?
                    then Step(Accept(old(st.cur) + 1), Emit(old(o), found.value)) else Step(Reject, old(o)))
    {
      var p := 0;
      while p < |g.builtins|
        invariant p <= |g.builtins| && unchanged(this, buf)
        invariant st.cur < |g.text| ==>
          FindChar(g.builtins, 0, g.At(st.cur)) == FindChar(g.builtins[p..], 0, g.At(st.cur))
      {
        assert g.builtins[p..][1..] == g.builtins[p + 1..];
        if st.cur < |g.text| && g.At(st.cur) == g.builtins[p].At(0) {
          MaybeAppend(g.builtins[p].realName);
          st := st.(cur := st.cur + 1);
          return true;
        }
        p := p + 1;
      }
      return false;
    }

    method ParseBuiltinType() returns (ok: bool)
      requires Valid() && !g.BuiltinType(st.cur).Stray?
      modifies this, buf
      ensures Valid() && Follows(ok, WriteBuiltinType(g, old(st.cur), old(o)))
    {
      hide Grammar.SourceName;
      ok := ParseAbbreviatedType();
      if ok {
        return;
      }
      var copy := st;
      ok := ParseOneCharToken('u');
      if ok { ok := ParseSourceName(); }
      if !ok { Rewind(copy); }
    }

    /** T <parameter-2 non-negative number> _ */
    method ParseNumberedParam() returns (ok: bool)
      requires Valid()
      modifies this`st
      ensures Valid()
      ensures Moves(ok, if g.At(old(st.cur)) == 'T' then g.Expect(g.Number(old(st.cur) + 1), '_') else Reject)
    {
      var copy := st;
      ok := ParseOneCharToken('T');
      if ok { ok := ParseNumberThen('_'); }
      if !ok { Rewind(copy); }
    }

    method ParseTemplateParam() returns (ok: bool)
      requires Valid()
      modifies this, buf
      ensures Valid() && Follows(ok, WriteTemplateParam(g, old(st.cur), old(o)))
    {
      ok := ParseTwoCharToken('T', '_');
      if !ok { ok := ParseNumberedParam(); }
      if ok {
        MaybeAppend("?");
      }
    }

    /** S <seq-id> _ */
    method ParseNumberedSubstitution() returns (ok: bool)
      requires Valid()
      modifies this`st
      ensures Valid()
      ensures Moves(ok, if g.At(old(st.cur)) == 'S' then g.Expect(g.Run(old(st.cur) + 1, SeqIdChars), '_') else Reject)
    {
      var copy := st;
      ok := ParseOneCharToken('S');
      if ok { ok := ParseSeqId(); }
      if ok { ok := ParseOneCharToken('_'); }
      if !ok { Rewind(copy); }
    }

    method ParseSubstitution() returns (ok: bool)
      requires Valid()
      modifies this, buf
      ensures Valid() && Follows(ok, WriteSubstitution(g, old(st.cur), old(o)))
    {
      hide Emit, WriteAbbreviation, FindChar, Grammar.Run;
      ok := ParseTwoCharToken('S', '_');
      if !ok { ok := ParseNumberedSubstitution(); }
      if ok {
        MaybeAppend("?");
        return;
      }
      var copy := st;
      ok := ParseOneCharToken('S');
      if ok { ok := ExpandAbbreviation(); }
      if !ok { Rewind(copy); }
    }

    /** The table lookup of ParseSubstitution, behind the 'S'. */
    method ExpandAbbreviation() returns (ok: bool)
      requires Valid()
      modifies this, buf
      ensures Valid()
      ensures var found := FindChar(g.substitutions, 1, g.At(old(st.cur)));
        Follows(ok, if old(st.cur) < |g.text| && found.Some?
                    then Step(Accept(old(st.cur) + 1), WriteAbbreviation(found.value, old(o)))
                    else Step(Reject, old(o)))
    {
      var p := 0;
      while p < |g.substitutions|
        invariant p <= |g.substitutions| && unchanged(this, buf)
        invariant st.cur < |g.text| ==>
          FindChar(g.substitutions, 1, g.At(st.cur)) == FindChar(g.substitutions[p..], 1, g.At(st.cur))
      {
        assert g.substitutions[p..][1..] == g.substitutions[p + 1..];
        if st.cur < |g.text| && g.At(st.cur) == g.substitutions[p].At(1) {
          MaybeAppend("std");
          if g.substitutions[p].realName != "" {
            MaybeAppend("::");
            MaybeAppend(g.substitutions[p].realName);
          }
          st := st.(cur := st.cur + 1);
          return true;
        }
        p := p + 1;
      }
      return false;
    }

    method ParseTemplateTemplateParam() returns (ok: bool)
      requires Valid()
      modifies this, buf
      ensures Valid() && Follows(ok, WriteTemplateTemplateParam(g, old(st.cur), old(o)))
    {
      ok := ParseTemplateParam();
      if !ok { ok := ParseSubstitution(); }
    }

    // ---------- the mutually recursive parsers ----------

    /** <mangled-name>.  When the encoding fails, the cursor stays behind the "_Z". */
    method ParseMangledName() returns (ok: bool)
      requires Valid() && !g.MangledName(st.cur).Stray?
      modifies this, buf
      ensures Valid()
      ensures var i := old(st.cur);
        FollowsTo(ok, WriteMangledName(g, i, old(o)), if g.At2(i, '_', 'Z') then i + 2 else i)
      decreases |g.text| - st.cur, 0
    {
      ok := ParseTwoCharToken('_', 'Z');
      if ok { ok := ParseEncoding(); }
    }

    method ParseEncoding() returns (ok: bool)
      requires Valid() && !g.Encoding(st.cur).Stray?
      modifies this, buf
      ensures Valid() && Follows(ok, WriteEncoding(g, old(st.cur), old(o)))
      decreases |g.text| - st.cur, 7
    {
      ok := ParseFunctionEncoding();
      if !ok { ok := ParseName(); }
      if !ok { ok := ParseSpecialName(); }
    }

    /** The first alternative of ParseEncoding. */
    method ParseFunctionEncoding() returns (ok: bool)
      requires Valid() && !g.FunctionEncoding(st.cur).Stray?
      modifies this, buf
      ensures Valid() && Follows(ok, WriteFunctionEncoding(g, old(st.cur), old(o)))
      decreases |g.text| - st.cur, 6
    {
      hide Grammar.BareFunctionType, Grammar.Name, WriteBareFunctionType, WriteName;
      var copy := st;
      ghost var o0 := o;
      ok := ParseName();
      if ok { ok := ParseBareFunctionType(); }
      if !ok { Restore(copy, o0); }
    }

    method ParseName() returns (ok: bool)
      requires Valid() && !g.Name(st.cur).Stray?
      modifies this, buf
      ensures Valid() && Follows(ok, WriteName(g, old(st.cur), old(o)))
      decreases |g.text| - st.cur, 5, 0
    {
      hide Grammar.LocalName, Grammar.NestedName, Grammar.TemplatedName, Grammar.UnscopedName, WriteLocalName,
           WriteNestedName, WriteTemplatedName, WriteUnscopedName;
      ok := ParseNestedName();
      if !ok { ok := ParseLocalName(); }
      if !ok { ok := ParseTemplatedName(); }
      if !ok { ok := ParseUnscopedName(); }
    }

    /** The third alternative of ParseName. */
    method ParseTemplatedName() returns (ok: bool)
      requires Valid() && !g.TemplatedName(st.cur).Stray?
      modifies this, buf
      ensures Valid() && Follows(ok, WriteTemplatedName(g, old(st.cur), old(o)))
      decreases |g.text| - st.cur, 4
    {
      hide Grammar.TemplateArgs, Grammar.UnscopedTemplateName, WriteTemplateArgs, WriteUnscopedTemplateName;
      var copy := st;
      ghost var o0 := o;
      ok := ParseUnscopedTemplateName();
      if ok { ok := ParseTemplateArgs(); }
      if !ok { Restore(copy, o0); }
    }

    method ParseUnscopedName() returns (ok: bool)
      requires Valid() && !g.UnscopedName(st.cur).Stray?
      modifies this, buf
      ensures Valid() && Follows(ok, WriteUnscopedName(g, old(st.cur), old(o)))
      decreases |g.text| - st.cur, 2
    {
      hide Grammar.UnqualifiedName, WriteUnqualifiedName;
      ok := ParseUnqualifiedName();
      if ok {
        return;
      }
      var copy := st;
      ghost var o0 := o;
      ok := ParseTwoCharToken('S', 't');
      if ok {
        MaybeAppend("std::");
        ok := ParseUnqualifiedName();
      }
      if !ok { Restore(copy, o0); }
    }

    method ParseUnscopedTemplateName() returns (ok: bool)
      requires Valid() && !g.UnscopedTemplateName(st.cur).Stray?
      modifies this, buf
      ensures Valid() && Follows(ok, WriteUnscopedTemplateName(g, old(st.cur), old(o)))
      decreases |g.text| - st.cur, 3
    {
      ok := ParseUnscopedName();
      if !ok { ok := ParseSubstitution(); }
    }

    method ParseNestedName() returns (ok: bool)
      requires Valid() && !g.NestedName(st.cur).Stray?
      modifies this, buf
      ensures Valid() && Follows(ok, WriteNestedName(g, old(st.cur), old(o)))
      decreases |g.text| - st.cur, 0
    {
      hide Grammar.CvEnd, Grammar.Prefix, WritePrefix;
      var copy := st;
      ghost var o0 := o;
      ok := ParseOneCharToken('N');
      if ok {
        SetNestLevel(0);
        SkipCVQualifiers();
        ParsePrefix();
        SetNestLevel(copy.nestLevel);
        ok := ParseOneCharToken('E');
      }
      if !ok { Restore(copy, o0); }
    }

    /** One item of a <prefix>. */
    method ParsePrefixItem() returns (ok: bool)
      requires Valid() && !g.PrefixItem(st.cur).Stray?
      modifies this, buf
      ensures Valid() && Follows(ok, WritePrefixItem(g, old(st.cur), old(o)))
      decreases |g.text| - st.cur, 3
    {
      ok := ParseTemplateParam();
      if !ok { ok := ParseSubstitution(); }
      if !ok { ok := ParseUnscopedName(); }
    }

    /** <prefix>.  It always succeeds, and it leaves the nest level it has reached. */
    method ParsePrefix()
      requires Valid() && !g.Prefix(st.cur, false).Stray?
      modifies this, buf
      ensures Valid()
      ensures st.append == old(st.append)
      ensures Step(Accept(st.cur), o) == WritePrefix(g, old(st.cur), false, old(o))
      ensures !old(st.append) ==>
        st == old(st).(cur := st.cur, nestLevel := st.nestLevel) && o == old(o).(nest := o.nest)
      decreases |g.text| - st.cur, 4
    {
      hide Grammar.PrefixItem, WritePrefixItem;
      var hasSomething := false;
      var more := true;
      while more
        invariant Valid() && old(st.cur) <= st.cur
        invariant st.append == old(st.append)
        invariant more ==> !g.Prefix(st.cur, hasSomething).Stray?
        invariant WritePrefix(g, old(st.cur), false, old(o)) ==
          if more then WritePrefix(g, st.cur, hasSomething, o)
          else if hasSomething then WritePrefixArgs(g, st.cur, o) else Step(Accept(st.cur), o)
        invariant !more && hasSomething ==> !g.PrefixArgs(st.cur).Stray? && old(st.cur) < st.cur
        invariant hasSomething ==> old(st.cur) < st.cur
        invariant !old(st.append) ==>
          st == old(st).(cur := st.cur, nestLevel := st.nestLevel) && o == old(o).(nest := o.nest)
        decreases more, |g.text| - st.cur
      {
        MaybeAppendSeparator();
        more := ParsePrefixItem();
        if more {
          hasSomething := true;
          MaybeIncreaseNestLevel();
        } else {
          MaybeCancelLastSeparator();
        }
      }
      if hasSomething {
        var args := ParseTemplateArgs();
        if args {
          ParsePrefix();
        }
      }
    }

    /** Optional(ParseCVQualifiers()) */
    method SkipCVQualifiers()
      requires Valid()
      modifies this`st
      ensures Valid() && st == old(st).(cur := g.CvEnd(old(st.cur)))
    {
      var _ := ParseCVQualifiers();
    }

    method ParseUnqualifiedName() returns (ok: bool)
      requires Valid() && !g.UnqualifiedName(st.cur).Stray?
      modifies this, buf
      ensures Valid() && Follows(ok, WriteUnqualifiedName(g, old(st.cur), old(o)))
      decreases |g.text| - st.cur, 1
    {
      hide Grammar.CtorDtorName, Grammar.LocalSourceName, Grammar.OperatorName, Grammar.SourceName,
           WriteCtorDtorName, WriteLocalSourceName, WriteOperatorName, WriteSourceName;
      ok := ParseOperatorName();
      if !ok { ok := ParseCtorDtorName(); }
      if !ok { ok := ParseTaggedSourceName(); }
      if !ok { ok := ParseTaggedLocalSourceName(); }
    }

    /** <source-name> [<abi-tags>] */
    method ParseTaggedSourceName() returns (ok: bool)
      requires Valid() && !g.Tagged(g.SourceName(st.cur)).Stray?
      modifies this, buf
      ensures Valid() && Follows(ok, Tagged(g, WriteSourceName(g, old(st.cur), old(o))))
    {
      ok := ParseSourceName();
      if ok {
        var _ := ParseAbiTags();
      }
    }

    /** <local-source-name> [<abi-tags>] */
    method ParseTaggedLocalSourceName() returns (ok: bool)
      requires Valid() && !g.Tagged(g.LocalSourceName(st.cur)).Stray?
      modifies this, buf
      ensures Valid() && Follows(ok, Tagged(g, WriteLocalSourceName(g, old(st.cur), old(o))))
    {
      ok := ParseLocalSourceName();
      if ok {
        var _ := ParseAbiTags();
      }
    }

    method ParseOperatorName() returns (ok: bool)
      requires Valid() && !g.OperatorName(st.cur).Stray?
      modifies this, buf
      ensures Valid() && Follows(ok, WriteOperatorName(g, old(st.cur), old(o)))
      decreases |g.text| - st.cur, 0, 1
    {
      hide Grammar.OperatorSymbol, Grammar.SourceName, Grammar.Type, WriteCast, WriteOperatorSymbol, WriteSourceName;
      if st.cur + 2 > |g.text| {
        return false;
      }
      ok := ParseCastOperator();
      if !ok { ok := ParseVendorOperator(); }
      if !ok { ok := ParseOperatorSymbol(); }
    }

    /** cv <type> */
    method ParseCastOperator() returns (ok: bool)
      requires Valid() && (g.At2(st.cur, 'c', 'v') ==> !g.Type(st.cur + 2).Stray?)
      modifies this, buf
      ensures Valid()
      ensures var i := old(st.cur);
        Follows(ok, if g.At2(i, 'c', 'v') then WriteCast(g, i + 2, old(o)) else Step(Reject, old(o)))
      decreases |g.text| - st.cur, 0, 0
    {
      hide Grammar.ArrayType, Grammar.BuiltinType, Grammar.FunctionType, Grammar.ModifiedType, Grammar.Name,
           Grammar.PointerToMemberType, Grammar.Substitution, Grammar.TemplateParam, Grammar.TemplatedParam,
           WriteArrayType, WriteBuiltinType, WriteFunctionType, WriteModifiedType, WriteName,
           WritePointerToMemberType, WriteSubstitution, WriteTemplateParam, WriteTemplatedParam;
      var copy := st;
      ghost var o0 := o;
      ok := ParseTwoCharToken('c', 'v');
      if ok {
        MaybeAppend("operator ");
        SetNestLevel(0);
        ok := ParseType();
        SetNestLevel(copy.nestLevel);
      }
      if !ok { Restore(copy, o0); }
    }

    /** v <digit> <source-name> */
    method ParseVendorOperator() returns (ok: bool)
      requires Valid() && (g.At(st.cur) == 'v' && IsDigit(g.At(st.cur + 1)) ==> !g.SourceName(st.cur + 2).Stray?)
      modifies this, buf
      ensures Valid()
      ensures var i := old(st.cur);
        Follows(ok, if g.At(i) == 'v' && IsDigit(g.At(i + 1)) then WriteSourceName(g, i + 2, old(o))
                    else Step(Reject, old(o)))
    {
      hide Grammar.Number, Grammar.NumberValue;
      var copy := st;
      ok := ParseOneCharToken('v');
      if ok { ok := ParseCharClass("0123456789"); }
      if ok { ok := ParseSourceName(); }
      if !ok { Rewind(copy); }
    }

    /** The table lookup of ParseOperatorName. */
    method ParseOperatorSymbol() returns (ok: bool)
      requires Valid() && st.cur + 2 <= |g.text|
      modifies this, buf
      ensures Valid() && Follows(ok, WriteOperatorSymbol(g, old(st.cur), old(o)))
    {
      var c0, c1 := g.At(st.cur), g.At(st.cur + 1);
      if !(IsLower(c0) && IsAlpha(c1)) {
        return false;
      }
      var p := 0;
      while p < |g.operators|
        invariant p <= |g.operators| && unchanged(this, buf)
        invariant FindPair(g.operators, c0, c1) == FindPair(g.operators[p..], c0, c1)
      {
        assert g.operators[p..][1..] == g.operators[p + 1..];
        if c0 == g.operators[p].At(0) && c1 == g.operators[p].At(1) {
          AppendOperator(g.operators[p].realName);
          st := st.(cur := st.cur + 2);
          return true;
        }
        p := p + 1;
      }
      return false;
    }

    method AppendOperator(symbol: string)
      requires Valid()
      modifies this, buf
      ensures Valid() && o == EmitOperator(old(o), symbol)
      ensures st == old(st).(outCur := st.outCur, prev := st.prev, overflowed := st.overflowed)
      ensures !old(st.append) ==> Silent()
    {
      MaybeAppend("operator");
      if symbol != "" && IsLower(symbol[0]) {  // new, delete, etc.
        MaybeAppend(" ");
      }
      MaybeAppend(symbol);
    }

    method ParseSpecialName() returns (ok: bool)
      requires Valid() && !g.SpecialName(st.cur).Stray?
      modifies this, buf
      ensures Valid() && Follows(ok, WriteSpecialName(g, old(st.cur), old(o)))
      decreases |g.text| - st.cur, 2
    {
      hide Play;
      hide Emit, Grammar.GnuSpecialName, Grammar.Name, Grammar.OffsetEncoding, Grammar.Offsets2Encoding,
           Grammar.Type, Wf, WriteGnuSpecialName, WriteName, WriteOffsetEncoding, WriteOffsets2Encoding, WriteType;
      ok := ParseTypeInfoName();
      if !ok { ok := ParseCovariantThunk(); }
      if !ok { ok := ParseGuardVariable(); }
      if !ok { ok := ParseThunk(); }
      if !ok { ok := ParseGnuSpecialName(); }
    }

    /** T [VTIS] <type> */
    method ParseTypeInfoName() returns (ok: bool)
      requires Valid() && (g.At(st.cur) == 'T' && g.At(st.cur + 1) in "VTIS" ==> !g.Type(st.cur + 2).Stray?)
      modifies this, buf
      ensures Valid()
      ensures var i := old(st.cur);
        Follows(ok, if g.At(i) == 'T' && g.At(i + 1) in "VTIS" then WriteType(g, i + 2, old(o))
                    else Step(Reject, old(o)))
      decreases |g.text| - st.cur, 0
    {
      hide Grammar.ArrayType, Grammar.BuiltinType, Grammar.FunctionType, Grammar.ModifiedType, Grammar.Name,
           Grammar.PointerToMemberType, Grammar.Substitution, Grammar.TemplateParam, Grammar.TemplatedParam,
           WriteArrayType, WriteBuiltinType, WriteFunctionType, WriteModifiedType, WriteName,
           WritePointerToMemberType, WriteSubstitution, WriteTemplateParam, WriteTemplatedParam;
      var copy := st;
      ghost var o0 := o;
      ok := ParseOneCharToken('T');
      if ok { ok := ParseCharClass("VTIS"); }
      if ok { ok := ParseType(); }
      if !ok { Restore(copy, o0); }
    }

    /** Tc <call-offset> <call-offset> <encoding> */
    method ParseCovariantThunk() returns (ok: bool)
      requires Valid() && (g.At2(st.cur, 'T', 'c') ==> !g.Offsets2Encoding(st.cur + 2).Stray?)
      modifies this, buf
      ensures Valid()
      ensures var i := old(st.cur);
        Follows(ok, if g.At2(i, 'T', 'c') then WriteOffsets2Encoding(g, i + 2, old(o)) else Step(Reject, old(o)))
      decreases |g.text| - st.cur, 0
    {
      hide Emit, Grammar.CallOffset, Grammar.Encoding, Undo, WriteEncoding;
      var copy := st;
      ghost var o0 := o;
      ok := ParseTwoCharToken('T', 'c');
      if ok { ok := ParseCallOffset(); }
      if ok { ok := ParseCallOffset(); }
      if ok { ok := ParseEncoding(); }
      if !ok { Restore(copy, o0); }
    }

    /** GV <name> */
    method ParseGuardVariable() returns (ok: bool)
      requires Valid() && (g.At2(st.cur, 'G', 'V') ==> !g.Name(st.cur + 2).Stray?)
      modifies this, buf
      ensures Valid()
      ensures var i := old(st.cur);
        Follows(ok, if g.At2(i, 'G', 'V') then WriteName(g, i + 2, old(o)) else Step(Reject, old(o)))
      decreases |g.text| - st.cur, 0
    {
      var copy := st;
      ghost var o0 := o;
      ok := ParseTwoCharToken('G', 'V');
      if ok { ok := ParseName(); }
      if !ok { Restore(copy, o0); }
    }

    /** T <call-offset> <encoding> */
    method ParseThunk() returns (ok: bool)
      requires Valid() && (g.At(st.cur) == 'T' ==> !g.OffsetEncoding(st.cur + 1).Stray?)
      modifies this, buf
      ensures Valid()
      ensures var i := old(st.cur);
        Follows(ok, if g.At(i) == 'T' then WriteOffsetEncoding(g, i + 1, old(o)) else Step(Reject, old(o)))
      decreases |g.text| - st.cur, 0
    {
      hide Grammar.CallOffset, Grammar.Encoding, WriteEncoding;
      var copy := st;
      ghost var o0 := o;
      ok := ParseOneCharToken('T');
      if ok { ok := ParseCallOffset(); }
      if ok { ok := ParseEncoding(); }
      if !ok { Restore(copy, o0); }
    }

    /** The G++ extensions of ParseSpecialName. */
    method ParseGnuSpecialName() returns (ok: bool)
      requires Valid() && !g.GnuSpecialName(st.cur).Stray?
      modifies this, buf
      ensures Valid() && Follows(ok, WriteGnuSpecialName(g, old(st.cur), old(o)))
      decreases |g.text| - st.cur, 1
    {
      hide Play;
      hide Grammar.At, Grammar.ConstructionVtable, Grammar.Encoding, Grammar.Name, Grammar.OffsetEncoding,
           Grammar.Type, Undo, WriteConstructionVtable, WriteEncoding, WriteName, WriteOffsetEncoding, WriteType;
      ok := ParseConstructionVtable();
      if !ok { ok := ParseGnuType(); }
      if !ok { ok := ParseReferenceTemporary(); }
      if !ok { ok := ParseHiddenAlias(); }
      if !ok { ok := ParseGnuThunk(); }
    }

    /** TC <type> <(offset) number> _ <(base) type> */
    method ParseConstructionVtable() returns (ok: bool)
      requires Valid() && (g.At2(st.cur, 'T', 'C') ==> !g.ConstructionVtable(st.cur + 2).Stray?)
      modifies this, buf
      ensures Valid()
      ensures var i := old(st.cur);
        Follows(ok, if g.At2(i, 'T', 'C') then WriteConstructionVtable(g, i + 2, old(o)) else Step(Reject, old(o)))
      decreases |g.text| - st.cur, 0
    {
      hide Emit, Grammar.AfterDiscriminator, Grammar.Expect, Grammar.Number, Grammar.Run, Grammar.Type, Undo, Wf,
           WriteType;
      var copy := st;
      ghost var o0 := o;
      ok := ParseTwoCharToken('T', 'C');
      if ok { ok := ParseType(); }
      if ok { ok := ParseNumberThen('_'); }
      if ok {
        DisableAppend();
        ok := ParseType();
        RestoreAppend(copy.append);
      }
      if !ok { Restore(copy, o0); }
    }

    /** T [FJ] <type> */
    method ParseGnuType() returns (ok: bool)
      requires Valid() && (g.At(st.cur) == 'T' && g.At(st.cur + 1) in "FJ" ==> !g.Type(st.cur + 2).Stray?)
      modifies this, buf
      ensures Valid()
      ensures var i := old(st.cur);
        Follows(ok, if g.At(i) == 'T' && g.At(i + 1) in "FJ" then WriteType(g, i + 2, old(o)) else Step(Reject, old(o)))
      decreases |g.text| - st.cur, 0
    {
      hide Grammar.ArrayType, Grammar.BuiltinType, Grammar.FunctionType, Grammar.ModifiedType, Grammar.Name,
           Grammar.PointerToMemberType, Grammar.Substitution, Grammar.TemplateParam, Grammar.TemplatedParam,
           WriteArrayType, WriteBuiltinType, WriteFunctionType, WriteModifiedType, WriteName,
           WritePointerToMemberType, WriteSubstitution, WriteTemplateParam, WriteTemplatedParam;
      var copy := st;
      ghost var o0 := o;
      ok := ParseOneCharToken('T');
      if ok { ok := ParseCharClass("FJ"); }
      if ok { ok := ParseType(); }
      if !ok { Restore(copy, o0); }
    }

    /** GR <name> */
    method ParseReferenceTemporary() returns (ok: bool)
      requires Valid() && (g.At2(st.cur, 'G', 'R') ==> !g.Name(st.cur + 2).Stray?)
      modifies this, buf
      ensures Valid()
      ensures var i := old(st.cur);
        Follows(ok, if g.At2(i, 'G', 'R') then WriteName(g, i + 2, old(o)) else Step(Reject, old(o)))
      decreases |g.text| - st.cur, 0
    {
      hide Grammar.LocalName, Grammar.NestedName, Grammar.TemplatedName, Grammar.UnscopedName, WriteLocalName,
           WriteNestedName, WriteTemplatedName, WriteUnscopedName;
      var copy := st;
      ghost var o0 := o;
      ok := ParseTwoCharToken('G', 'R');
      if ok { ok := ParseName(); }
      if !ok { Restore(copy, o0); }
    }

    /** GA <encoding> */
    method ParseHiddenAlias() returns (ok: bool)
      requires Valid() && (g.At2(st.cur, 'G', 'A') ==> !g.Encoding(st.cur + 2).Stray?)
      modifies this, buf
      ensures Valid()
      ensures var i := old(st.cur);
        Follows(ok, if g.At2(i, 'G', 'A') then WriteEncoding(g, i + 2, old(o)) else Step(Reject, old(o)))
      decreases |g.text| - st.cur, 0
    {
      var copy := st;
      ghost var o0 := o;
      ok := ParseTwoCharToken('G', 'A');
      if ok { ok := ParseEncoding(); }
      if !ok { Restore(copy, o0); }
    }

    /** T [hv] <call-offset> <encoding> */
    method ParseGnuThunk() returns (ok: bool)
      requires Valid() && (g.At(st.cur) == 'T' && g.At(st.cur + 1) in "hv" ==> !g.OffsetEncoding(st.cur + 2).Stray?)
      modifies this, buf
      ensures Valid()
      ensures var i := old(st.cur);
        Follows(ok, if g.At(i) == 'T' && g.At(i + 1) in "hv" then WriteOffsetEncoding(g, i + 2, old(o))
                    else Step(Reject, old(o)))
      decreases |g.text| - st.cur, 0
    {
      hide Grammar.CallOffset, Grammar.Encoding, WriteEncoding;
      var copy := st;
      ghost var o0 := o;
      ok := ParseOneCharToken('T');
      if ok { ok := ParseCharClass("hv"); }
      if ok { ok := ParseCallOffset(); }
      if ok { ok := ParseEncoding(); }
      if !ok { Restore(copy, o0); }
    }

    method ParseType() returns (ok: bool)
      requires Valid() && !g.Type(st.cur).Stray?
      modifies this, buf
      ensures Valid() && Follows(ok, WriteType(g, old(st.cur), old(o)))
      decreases |g.text| - st.cur, 6
    {
      hide Play;
      hide Grammar.ArrayType, Grammar.BuiltinType, Grammar.FunctionType, Grammar.ModifiedType, Grammar.Name,
           Grammar.PointerToMemberType, Grammar.Substitution, Grammar.TemplateParam, Grammar.TemplatedParam,
           WriteArrayType, WriteBuiltinType, WriteFunctionType, WriteModifiedType, WriteName,
           WritePointerToMemberType, WriteSubstitution, WriteTemplateParam, WriteTemplatedParam;
      ok := ParseModifiedType();
      if !ok { ok := ParseBuiltinType(); }
      if !ok { ok := ParseFunctionType(); }
      if !ok { ok := ParseClassEnumType(); }
      if !ok { ok := ParseArrayType(); }
      if !ok { ok := ParsePointerToMemberType(); }
      if !ok { ok := ParseSubstitution(); }
      if !ok { ok := ParseTemplatedParam(); }
      if !ok { ok := ParseTemplateParam(); }
    }

    /** <class-enum-type> ::= <name> */
    method ParseClassEnumType() returns (ok: bool)
      requires Valid() && !g.Name(st.cur).Stray?
      modifies this, buf
      ensures Valid() && Follows(ok, WriteName(g, old(st.cur), old(o)))
      decreases |g.text| - st.cur, 5, 1
    {
      ok := ParseName();
    }

    /** The alternatives of ParseType that wrap another type or an expression. */
    method ParseModifiedType() returns (ok: bool)
      requires Valid() && !g.ModifiedType(st.cur).Stray?
      modifies this, buf
      ensures Valid() && Follows(ok, WriteModifiedType(g, old(st.cur), old(o)))
      decreases |g.text| - st.cur, 1
    {
      hide Emit, Grown, Grammar.ExtendedType, Grammar.QualifiedType, Grammar.Type, Wf,
           WriteExtendedType, WriteQualifiedType, WriteType;
      ok := ParseQualifiedType();
      if !ok { ok := ParsePrefixedType(); }
      if !ok { ok := ParseExtendedType(); }
    }

    /** The alternatives with D and U */
    method ParseExtendedType() returns (ok: bool)
      requires Valid() && !g.ExtendedType(st.cur).Stray?
      modifies this, buf
      ensures Valid() && Follows(ok, WriteExtendedType(g, old(st.cur), old(o)))
      decreases |g.text| - st.cur, 1, 0
    {
      hide Emit, Grown, Grammar.Expression, Grammar.Type, Grammar.VendorType, Wf,
           WriteDecltype, WriteType, WriteVendorType;
      ok := ParsePackExpansion();
      if !ok { ok := ParseDecltype(); }
      if !ok { ok := ParseVendorType(); }
    }

    /** <CV-qualifiers> <type> */
    method ParseQualifiedType() returns (ok: bool)
      requires Valid() && !g.QualifiedType(st.cur).Stray?
      modifies this, buf
      ensures Valid() && Follows(ok, WriteQualifiedType(g, old(st.cur), old(o)))
      decreases |g.text| - st.cur, 0
    {
      hide Grammar.CvQualifiers, Grammar.Type, WriteType;
      var copy := st;
      ghost var o0 := o;
      ok := ParseCVQualifiers();
      if ok { ok := ParseType(); }
      if !ok { Restore(copy, o0); }
    }

    /** [OPRCG] <type> */
    method ParsePrefixedType() returns (ok: bool)
      requires Valid() && (g.At(st.cur) in "OPRCG" ==> !g.Type(st.cur + 1).Stray?)
      modifies this, buf
      ensures Valid()
      ensures var i := old(st.cur);
        Follows(ok, if g.At(i) in "OPRCG" then WriteType(g, i + 1, old(o)) else Step(Reject, old(o)))
      decreases |g.text| - st.cur, 0
    {
      hide Grammar.ArrayType, Grammar.BuiltinType, Grammar.FunctionType, Grammar.ModifiedType, Grammar.Name,
           Grammar.PointerToMemberType, Grammar.Substitution, Grammar.TemplateParam, Grammar.TemplatedParam,
           WriteArrayType, WriteBuiltinType, WriteFunctionType, WriteModifiedType, WriteName,
           WritePointerToMemberType, WriteSubstitution, WriteTemplateParam, WriteTemplatedParam;
      var copy := st;
      ghost var o0 := o;
      ok := ParseCharClass("OPRCG");
      if ok { ok := ParseType(); }
      if !ok { Restore(copy, o0); }
    }

    /** Dp <type> */
    method ParsePackExpansion() returns (ok: bool)
      requires Valid() && (g.At2(st.cur, 'D', 'p') ==> !g.Type(st.cur + 2).Stray?)
      modifies this, buf
      ensures Valid()
      ensures var i := old(st.cur);
        Follows(ok, if g.At2(i, 'D', 'p') then WriteType(g, i + 2, old(o)) else Step(Reject, old(o)))
      decreases |g.text| - st.cur, 0
    {
      hide Grammar.ArrayType, Grammar.BuiltinType, Grammar.FunctionType, Grammar.ModifiedType, Grammar.Name,
           Grammar.PointerToMemberType, Grammar.Substitution, Grammar.TemplateParam, Grammar.TemplatedParam,
           WriteArrayType, WriteBuiltinType, WriteFunctionType, WriteModifiedType, WriteName,
           WritePointerToMemberType, WriteSubstitution, WriteTemplateParam, WriteTemplatedParam;
      var copy := st;
      ghost var o0 := o;
      ok := ParseTwoCharToken('D', 'p');
      if ok { ok := ParseType(); }
      if !ok { Restore(copy, o0); }
    }

    /** D [tT] <expression> E */
    method ParseDecltype() returns (ok: bool)
      requires Valid() && (g.At(st.cur) == 'D' && g.At(st.cur + 1) in "tT" ==> !g.Expression(st.cur + 2).Stray?)
      modifies this, buf
      ensures Valid()
      ensures var i := old(st.cur);
        Follows(ok, if g.At(i) == 'D' && g.At(i + 1) in "tT" then WriteDecltype(g, i + 2, old(o))
                    else Step(Reject, old(o)))
      decreases |g.text| - st.cur, 0
    {
      hide Emit, Grammar.ExprPrimary, Grammar.Operation, Grammar.ScopedName, Grammar.ScopedTemplate,
           Grammar.TemplateParam, Grammar.Type, Undo, WriteExprPrimary, WriteOperation, WriteScopedName,
           WriteScopedTemplate, WriteTemplateParam, WriteType;
      var copy := st;
      ghost var o0 := o;
      ok := ParseOneCharToken('D');
      if ok { ok := ParseCharClass("tT"); }
      if ok { ok := ParseExpression(); }
      if ok { ok := ParseOneCharToken('E'); }
      if !ok { Restore(copy, o0); }
    }

    /** U <source-name> <type> */
    method ParseVendorType() returns (ok: bool)
      requires Valid() && (g.At(st.cur) == 'U' ==> !g.VendorType(st.cur + 1).Stray?)
      modifies this, buf
      ensures Valid()
      ensures var i := old(st.cur);
        Follows(ok, if g.At(i) == 'U' then WriteVendorType(g, i + 1, old(o)) else Step(Reject, old(o)))
      decreases |g.text| - st.cur, 0
    {
      hide Grammar.SourceName, Grammar.Type, WriteSourceName, WriteType;
      var copy := st;
      ghost var o0 := o;
      ok := ParseOneCharToken('U');
      if ok { ok := ParseSourceName(); }
      if ok { ok := ParseType(); }
      if !ok { Restore(copy, o0); }
    }

    /** <template-template-param> <template-args> */
    method ParseTemplatedParam() returns (ok: bool)
      requires Valid() && !g.TemplatedParam(st.cur).Stray?
      modifies this, buf
      ensures Valid() && Follows(ok, WriteTemplatedParam(g, old(st.cur), old(o)))
      decreases |g.text| - st.cur, 0
    {
      var copy := st;
      ghost var o0 := o;
      ok := ParseTemplateTemplateParam();
      if ok { ok := ParseTemplateArgs(); }
      if !ok { Restore(copy, o0); }
    }

    method ParseFunctionType() returns (ok: bool)
      requires Valid() && !g.FunctionType(st.cur).Stray?
      modifies this, buf
      ensures Valid() && Follows(ok, WriteFunctionType(g, old(st.cur), old(o)))
      decreases |g.text| - st.cur, 0
    {
      hide Emit, Grammar.AfterDiscriminator, Grammar.BareFunctionType, Grammar.Expect, Grammar.Number, Grammar.Run,
           Undo, Wf, WriteBareFunctionType;
      var copy := st;
      ghost var o0 := o;
      ok := ParseOneCharToken('F');
      if ok {
        var _ := ParseOneCharToken('Y');
        ok := ParseBareFunctionType();
      }
      if ok { ok := ParseOneCharToken('E'); }
      if !ok { Restore(copy, o0); }
    }

    /** OneOrMore(ParseType), with appending off */
    method OneOrMoreTypes() returns (ok: bool)
      requires Valid() && !g.BareFunctionType(st.cur).Stray? && !st.append
      modifies this, buf
      ensures Valid() && Moves(ok, g.BareFunctionType(old(st.cur)))
      decreases |g.text| - st.cur, 7
    {
      ok := ParseType();
      var more := ok;
      while more
        invariant Valid() && Silent() && (ok ==> old(st.cur) < st.cur)
        invariant !ok ==> !more && st.cur == old(st.cur)
        invariant g.BareFunctionType(old(st.cur)) ==
          if !ok then Reject else if more then g.MoreTypes(st.cur) else Accept(st.cur)
        decreases more, |g.text| - st.cur
      {
        more := ParseType();
      }
    }

    /** <bare-function-type>: a parameter list, of which only "()" is written. */
    method ParseBareFunctionType() returns (ok: bool)
      requires Valid() && !g.BareFunctionType(st.cur).Stray?
      modifies this, buf
      ensures Valid() && Follows(ok, WriteBareFunctionType(g, old(st.cur), old(o)))
      decreases |g.text| - st.cur, 8
    {
      var copy := st;
      ghost var o0 := o;
      DisableAppend();
      ok := OneOrMoreTypes();
      if ok {
        RestoreAppend(copy.append);
        MaybeAppend("()");
      } else {
        Restore(copy, o0);
      }
    }

    method ParseArrayType() returns (ok: bool)
      requires Valid() && !g.ArrayType(st.cur).Stray?
      modifies this, buf
      ensures Valid() && Follows(ok, WriteArrayType(g, old(st.cur), old(o)))
      decreases |g.text| - st.cur, 1
    {
      hide Grammar.ExpressionArray, Grammar.NumberedArray, WriteExpressionArray, WriteNumberedArray;
      ok := ParseNumberedArray();
      if !ok { ok := ParseExpressionArray(); }
    }

    /** A <number> _ <type> */
    method ParseNumberedArray() returns (ok: bool)
      requires Valid() && (g.At(st.cur) == 'A' ==> !g.NumberedArray(st.cur + 1).Stray?)
      modifies this, buf
      ensures Valid()
      ensures var i := old(st.cur);
        Follows(ok, if g.At(i) == 'A' then WriteNumberedArray(g, i + 1, old(o)) else Step(Reject, old(o)))
      decreases |g.text| - st.cur, 0
    {
      hide Emit, Grammar.Number, Grammar.Type, Undo, WriteType;
      var copy := st;
      ghost var o0 := o;
      ok := ParseOneCharToken('A');
      if ok { ok := ParseNumberThen('_'); }
      if ok { ok := ParseType(); }
      if !ok { Restore(copy, o0); }
    }

    /** A [<expression>] _ <type> */
    method ParseExpressionArray() returns (ok: bool)
      requires Valid() && (g.At(st.cur) == 'A' ==> !g.ExpressionArray(st.cur + 1).Stray?)
      modifies this, buf
      ensures Valid()
      ensures var i := old(st.cur);
        Follows(ok, if g.At(i) == 'A' then WriteExpressionArray(g, i + 1, old(o)) else Step(Reject, old(o)))
      decreases |g.text| - st.cur, 0
    {
      hide Emit, Grammar.AfterDiscriminator, Grammar.Expect, Grammar.Expression, Grammar.Number, Grammar.Run,
           Grammar.Type, Undo, Wf, WriteExpression, WriteType;
      var copy := st;
      ghost var o0 := o;
      ok := ParseOneCharToken('A');
      if ok {
        var _ := ParseExpression();
        ok := ParseOneCharToken('_');
      }
      if ok { ok := ParseType(); }
      if !ok { Restore(copy, o0); }
    }

    method ParsePointerToMemberType() returns (ok: bool)
      requires Valid() && !g.PointerToMemberType(st.cur).Stray?
      modifies this, buf
      ensures Valid() && Follows(ok, WritePointerToMemberType(g, old(st.cur), old(o)))
      decreases |g.text| - st.cur, 0
    {
      hide Grammar.Type, WriteType;
      var copy := st;
      ghost var o0 := o;
      ok := ParseOneCharToken('M');
      if ok { ok := ParseType(); }
      if ok { ok := ParseType(); }
      if !ok { Restore(copy, o0); }
    }

    /** OneOrMore(ParseTemplateArg), with appending off */
    method OneOrMoreTemplateArgs() returns (ok: bool)
      requires Valid() && !g.TemplateArgList(st.cur).Stray? && !st.append
      modifies this, buf
      ensures Valid() && Moves(ok, g.TemplateArgList(old(st.cur)))
      decreases |g.text| - st.cur, 8
    {
      ok := ParseTemplateArg();
      var more := ok;
      while more
        invariant Valid() && Silent() && (ok ==> old(st.cur) < st.cur)
        invariant !ok ==> !more && st.cur == old(st.cur)
        invariant g.TemplateArgList(old(st.cur)) ==
          if !ok then Reject else if more then g.MoreTemplateArgs(st.cur) else Accept(st.cur)
        decreases more, |g.text| - st.cur
      {
        more := ParseTemplateArg();
      }
    }

    /** ZeroOrMore(ParseTemplateArg), with appending off */
    method ZeroOrMoreTemplateArgs()
      requires Valid() && !g.MoreTemplateArgs(st.cur).Stray? && !st.append
      modifies this, buf
      ensures Valid() && Silent() && Accept(st.cur) == g.MoreTemplateArgs(old(st.cur))
      decreases |g.text| - st.cur, 8
    {
      var more := true;
      while more
        invariant Valid() && Silent() && old(st.cur) <= st.cur
        invariant g.MoreTemplateArgs(old(st.cur)) == if more then g.MoreTemplateArgs(st.cur) else Accept(st.cur)
        decreases more, |g.text| - st.cur
      {
        more := ParseTemplateArg();
      }
    }

    /** I <template-arg>+ E, with appending off.  When it fails, the cursor may have moved. */
    method ParseTemplateArgList() returns (ok: bool)
      requires Valid() && !g.TemplateArgs(st.cur).Stray? && !st.append
      modifies this, buf
      ensures Valid() && MovesTo(ok, g.TemplateArgs(old(st.cur)), st.cur)
      decreases |g.text| - st.cur, 0, 0
    {
      ok := ParseOneCharToken('I');
      if ok { ok := OneOrMoreTemplateArgs(); }
      if ok { ok := ParseOneCharToken('E'); }
    }

    /** <template-args>, of which only "<>" is written. */
    method ParseTemplateArgs() returns (ok: bool)
      requires Valid() && !g.TemplateArgs(st.cur).Stray?
      modifies this, buf
      ensures Valid() && Follows(ok, WriteTemplateArgs(g, old(st.cur), old(o)))
      decreases |g.text| - st.cur, 0, 1
    {
      hide Emit;
      var copy := st;
      ghost var o0 := o;
      DisableAppend();
      ok := ParseTemplateArgList();
      if ok {
        RestoreAppend(copy.append);
        MaybeAppend("<>");
      } else {
        Restore(copy, o0);
      }
    }

    method ParseTemplateArg() returns (ok: bool)
      requires Valid() && !g.TemplateArg(st.cur).Stray? && !st.append
      modifies this, buf
      ensures Valid() && Moves(ok, g.TemplateArg(old(st.cur)))
      decreases |g.text| - st.cur, 7
    {
      hide Play;
      hide Grammar.ExprPrimary, Grammar.Expression, Grammar.MoreTemplateArgs, Grammar.Type;
      ok := ParseArgumentPack();
      if !ok { ok := ParseType(); }
      if !ok { ok := ParseExprPrimary(); }
      if !ok { ok := ParseExpressionArg(); }
    }

    /** [IJ] <template-arg>* E */
    method ParseArgumentPack() returns (ok: bool)
      requires Valid() && !st.append
      requires g.At(st.cur) == 'I' || g.At(st.cur) == 'J' ==> !g.MoreTemplateArgs(st.cur + 1).Stray?
      modifies this, buf
      ensures Valid()
      ensures var i := old(st.cur);
        Moves(ok, if g.At(i) == 'I' || g.At(i) == 'J' then g.Expect(g.MoreTemplateArgs(i + 1), 'E') else Reject)
      decreases |g.text| - st.cur, 0
    {
      var copy := st;
      ok := ParseOneCharToken('I');
      if !ok { ok := ParseOneCharToken('J'); }
      if ok {
        ZeroOrMoreTemplateArgs();
        ok := ParseOneCharToken('E');
      }
      if !ok { Rewind(copy); }
    }

    /** X <expression> E */
    method ParseExpressionArg() returns (ok: bool)
      requires Valid() && (g.At(st.cur) == 'X' ==> !g.Expression(st.cur + 1).Stray?) && !st.append
      modifies this, buf
      ensures Valid()
      ensures var i := old(st.cur);
        Moves(ok, if g.At(i) == 'X' then g.Expect(g.Expression(i + 1), 'E') else Reject)
      decreases |g.text| - st.cur, 0
    {
      var copy := st;
      ok := ParseOneCharToken('X');
      if ok { ok := ParseExpression(); }
      if ok { ok := ParseOneCharToken('E'); }
      if !ok { Rewind(copy); }
    }

    method ParseExpression() returns (ok: bool)
      requires Valid() && !g.Expression(st.cur).Stray?
      modifies this, buf
      ensures Valid() && Follows(ok, WriteExpression(g, old(st.cur), old(o)))
      decreases |g.text| - st.cur, 2
    {
      hide Play;
      hide Grammar.ExprPrimary, Grammar.Operation, Grammar.ScopedName, Grammar.ScopedTemplate, Grammar.TemplateParam,
           Grammar.Type, WriteExprPrimary, WriteOperation, WriteScopedName, WriteScopedTemplate, WriteTemplateParam,
           WriteType;
      ok := ParseTemplateParam();
      if !ok { ok := ParseExprPrimary(); }
      if !ok { ok := ParseOperation(3); }
      if !ok { ok := ParseOperation(2); }
      if !ok { ok := ParseOperation(1); }
      if !ok { ok := ParseSizeofType(); }
      if !ok { ok := ParseScopedTemplate(); }
      if !ok { ok := ParseScopedName(); }
    }

    /** <operator-name> and `count` expressions */
    method ParseOperation(count: nat) returns (ok: bool)
      requires Valid() && !g.Operation(st.cur, count).Stray?
      modifies this, buf
      ensures Valid() && Follows(ok, WriteOperation(g, old(st.cur), count, old(o)))
      decreases |g.text| - st.cur, 1
    {
      hide Grammar.Expressions, Grammar.OperatorName, WriteExpressions, WriteOperatorName;
      var copy := st;
      ghost var o0 := o;
      ok := ParseOperatorName();
      if ok { ok := ParseExpressions(count); }
      if !ok { Restore(copy, o0); }
    }

    /** The calls of ParseExpression behind an operator. */
    method ParseExpressions(count: nat) returns (ok: bool)
      requires Valid() && !g.Expressions(st.cur, count).Stray?
      modifies this, buf
      ensures Valid() && Follows(ok, WriteExpressions(g, old(st.cur), count, old(o)))
      decreases |g.text| - st.cur, 3
    {
      hide Grammar.Expression, WriteExpression;
      if count == 0 {
        return true;
      }
      var copy := st;
      ghost var o0 := o;
      ok := ParseExpression();
      if ok { ok := ParseExpressions(count - 1); }
      if !ok { Restore(copy, o0); }
    }

    /** st <type> */
    method ParseSizeofType() returns (ok: bool)
      requires Valid() && (g.At2(st.cur, 's', 't') ==> !g.Type(st.cur + 2).Stray?)
      modifies this, buf
      ensures Valid()
      ensures var i := old(st.cur);
        Follows(ok, if g.At2(i, 's', 't') then WriteType(g, i + 2, old(o)) else Step(Reject, old(o)))
      decreases |g.text| - st.cur, 0
    {
      hide Grammar.ArrayType, Grammar.BuiltinType, Grammar.FunctionType, Grammar.ModifiedType, Grammar.Name,
           Grammar.PointerToMemberType, Grammar.Substitution, Grammar.TemplateParam, Grammar.TemplatedParam,
           WriteArrayType, WriteBuiltinType, WriteFunctionType, WriteModifiedType, WriteName,
           WritePointerToMemberType, WriteSubstitution, WriteTemplateParam, WriteTemplatedParam;
      var copy := st;
      ghost var o0 := o;
      ok := ParseTwoCharToken('s', 't');
      if ok { ok := ParseType(); }
      if !ok { Restore(copy, o0); }
    }

    /** sr <type> <unqualified-name> <template-args> */
    method ParseScopedTemplate() returns (ok: bool)
      requires Valid() && (g.At2(st.cur, 's', 'r') ==> !g.ScopedTemplate(st.cur + 2).Stray?)
      modifies this, buf
      ensures Valid()
      ensures var i := old(st.cur);
        Follows(ok, if g.At2(i, 's', 'r') then WriteScopedTemplate(g, i + 2, old(o)) else Step(Reject, old(o)))
      decreases |g.text| - st.cur, 0
    {
      hide Grammar.ScopedName, Grammar.TemplateArgs, WriteScopedName, WriteTemplateArgs;
      var copy := st;
      ghost var o0 := o;
      ok := ParseTwoCharToken('s', 'r');
      if ok { ok := ParseScopedParts(); }
      if ok { ok := ParseTemplateArgs(); }
      if !ok { Restore(copy, o0); }
    }

    /** sr <type> <unqualified-name> */
    method ParseScopedName() returns (ok: bool)
      requires Valid() && (g.At2(st.cur, 's', 'r') ==> !g.ScopedName(st.cur + 2).Stray?)
      modifies this, buf
      ensures Valid()
      ensures var i := old(st.cur);
        Follows(ok, if g.At2(i, 's', 'r') then WriteScopedName(g, i + 2, old(o)) else Step(Reject, old(o)))
      decreases |g.text| - st.cur, 0
    {
      hide Grammar.Type, Grammar.UnqualifiedName, WriteType, WriteUnqualifiedName;
      var copy := st;
      ghost var o0 := o;
      ok := ParseTwoCharToken('s', 'r');
      if ok { ok := ParseScopedParts(); }
      if !ok { Restore(copy, o0); }
    }

    /** <type> <unqualified-name> */
    method ParseScopedParts() returns (ok: bool)
      requires Valid() && !g.ScopedName(st.cur).Stray?
      modifies this, buf
      ensures Valid() && Follows(ok, WriteScopedName(g, old(st.cur), old(o)))
      decreases |g.text| - st.cur, 7
    {
      hide Grammar.Type, Grammar.UnqualifiedName, WriteType, WriteUnqualifiedName;
      var copy := st;
      ghost var o0 := o;
      ok := ParseType();
      if ok { ok := ParseUnqualifiedName(); }
      if !ok { Restore(copy, o0); }
    }

    method ParseExprPrimary() returns (ok: bool)
      requires Valid() && !g.ExprPrimary(st.cur).Stray?
      modifies this, buf
      ensures Valid() && Follows(ok, WriteExprPrimary(g, old(st.cur), old(o)))
      decreases |g.text| - st.cur, 1
    {
      hide Play;
      hide Grammar.Encoding, Grammar.Literal, Grammar.MangledName, WriteEncoding, WriteLiteral, WriteMangledName;
      ok := ParseLiteral(false);
      if !ok { ok := ParseLiteral(true); }
      if !ok { ok := ParseNameLiteral(); }
      if !ok { ok := ParseEncodingLiteral(); }
    }

    /** L <type> <value> E */
    method ParseLiteral(float: bool) returns (ok: bool)
      requires Valid() && (g.At(st.cur) == 'L' ==> !g.Literal(st.cur + 1, float).Stray?)
      modifies this, buf
      ensures Valid()
      ensures var i := old(st.cur);
        Follows(ok, if g.At(i) == 'L' then WriteLiteral(g, i + 1, float, old(o)) else Step(Reject, old(o)))
      decreases |g.text| - st.cur, 0
    {
      hide Emit, Grammar.AfterDiscriminator, Grammar.Expect, Grammar.Number, Grammar.Run, Grammar.Type, Undo, Wf,
           WriteType;
      var copy := st;
      ghost var o0 := o;
      ok := ParseOneCharToken('L');
      if ok { ok := ParseType(); }
      if ok { ok := ParseLiteralValue(float); }
      if !ok { Restore(copy, o0); }
    }

    /** L <mangled-name> E */
    method ParseNameLiteral() returns (ok: bool)
      requires Valid() && (g.At(st.cur) == 'L' ==> !g.MangledName(st.cur + 1).Stray?)
      modifies this, buf
      ensures Valid()
      ensures var i := old(st.cur);
        Follows(ok, if g.At(i) == 'L'
                    then Closing(old(o), Expect(g, WriteMangledName(g, i + 1, old(o)), 'E'))
                    else Step(Reject, old(o)))
      decreases |g.text| - st.cur, 0
    {
      hide Emit, Grammar.Encoding, Undo, WriteEncoding;
      var copy := st;
      ghost var o0 := o;
      ok := ParseOneCharToken('L');
      if ok { ok := ParseMangledName(); }
      if ok { ok := ParseOneCharToken('E'); }
      if !ok { Restore(copy, o0); }
    }

    /** LZ <encoding> E */
    method ParseEncodingLiteral() returns (ok: bool)
      requires Valid() && (g.At2(st.cur, 'L', 'Z') ==> !g.Encoding(st.cur + 2).Stray?)
      modifies this, buf
      ensures Valid()
      ensures var i := old(st.cur);
        Follows(ok, if g.At2(i, 'L', 'Z')
                    then Closing(old(o), Expect(g, WriteEncoding(g, i + 2, old(o)), 'E'))
                    else Step(Reject, old(o)))
      decreases |g.text| - st.cur, 0
    {
      hide Grammar.FunctionEncoding, Grammar.Name, Grammar.SpecialName, WriteFunctionEncoding, WriteName,
           WriteSpecialName;
      var copy := st;
      ghost var o0 := o;
      ok := ParseTwoCharToken('L', 'Z');
      if ok { ok := ParseEncoding(); }
      if ok { ok := ParseOneCharToken('E'); }
      if !ok { Restore(copy, o0); }
    }

    method ParseLocalName() returns (ok: bool)
      requires Valid() && !g.LocalName(st.cur).Stray?
      modifies this, buf
      ensures Valid() && Follows(ok, WriteLocalName(g, old(st.cur), old(o)))
      decreases |g.text| - st.cur, 1
    {
      hide Grammar.LocalEntity, Grammar.LocalString, WriteLocalEntity, WriteLocalString;
      ok := ParseLocalEntity();
      if !ok { ok := ParseLocalString(); }
    }

    /** Z <encoding> E <name> [<discriminator>] */
    method ParseLocalEntity() returns (ok: bool)
      requires Valid() && (g.At(st.cur) == 'Z' ==> !g.LocalEntity(st.cur + 1).Stray?)
      modifies this, buf
      ensures Valid()
      ensures var i := old(st.cur);
        Follows(ok, if g.At(i) == 'Z' then WriteLocalEntity(g, i + 1, old(o)) else Step(Reject, old(o)))
      decreases |g.text| - st.cur, 0
    {
      hide Emit, Grammar.AfterDiscriminator, Grammar.Encoding, Grammar.EntityName, Grammar.Expect, Grammar.Number,
           Grammar.Run, Undo, Wf, WriteEncoding, WriteEntityName;
      var copy := st;
      ghost var o0 := o;
      ok := ParseOneCharToken('Z');
      if ok { ok := ParseEncoding(); }
      if ok { ok := ParseOneCharToken('E'); }
      if ok { ok := ParseEntityName(); }
      if !ok { Restore(copy, o0); }
    }

    /** <(entity) name> [<discriminator>] */
    method ParseEntityName() returns (ok: bool)
      requires Valid() && !g.EntityName(st.cur).Stray?
      modifies this, buf
      ensures Valid() && Follows(ok, WriteEntityName(g, old(st.cur), old(o)))
      decreases |g.text| - st.cur, 6
    {
      var copy := st;
      ghost var o0 := o;
      MaybeAppend("::");
      ok := ParseName();
      if ok {
        SkipDiscriminator();
      } else {
        Restore(copy, o0);
      }
    }

    /** Z <encoding> E s [<discriminator>] */
    method ParseLocalString() returns (ok: bool)
      requires Valid() && (g.At(st.cur) == 'Z' ==> !g.LocalString(st.cur + 1).Stray?)
      modifies this, buf
      ensures Valid()
      ensures var i := old(st.cur);
        Follows(ok, if g.At(i) == 'Z' then WriteLocalString(g, i + 1, old(o)) else Step(Reject, old(o)))
      decreases |g.text| - st.cur, 0
    {
      hide Emit, Grammar.AfterDiscriminator, Grammar.Encoding, Grammar.Expect, Grammar.Number, Grammar.Run, Undo, Wf,
           WriteEncoding;
      var copy := st;
      ghost var o0 := o;
      ok := ParseOneCharToken('Z');
      if ok { ok := ParseEncoding(); }
      if ok { ok := ParseTwoCharToken('E', 's'); }
      if ok {
        SkipDiscriminator();
      } else {
        Restore(copy, o0);
      }
    }

    // ---------- the whole symbol ----------

    method SkipLetters(start: nat) returns (i: nat)
      requires start <= |g.text|
      ensures i == g.RunEnd(start, Letters)
    {
      i := start;
      while IsAlpha(g.At(i))
        invariant start <= i <= |g.text| && g.RunEnd(start, Letters) == g.RunEnd(i, Letters)
        decreases |g.text| - i
      {
        i := i + 1;
      }
    }

    method SkipDigits(start: nat) returns (i: nat)
      requires start <= |g.text|
      ensures i == g.RunEnd(start, Digits)
    {
      i := start;
      while IsDigit(g.At(i))
        invariant start <= i <= |g.text| && g.RunEnd(start, Digits) == g.RunEnd(i, Digits)
        decreases |g.text| - i
      {
        i := i + 1;
      }
    }

    method IsFunctionCloneSuffix(start: nat) returns (ok: bool)
      requires start <= |g.text|
      ensures ok == g.CloneSuffix(start)
    {
      hide Grammar.RunEnd;
      var i := start;
      while i < |g.text|
        invariant start <= i <= |g.text| && g.CloneSuffix(start) == g.CloneSuffix(i)
      {
        if g.At(i) != '.' || !IsAlpha(g.At(i + 1)) {
          return false;
        }
        i := SkipLetters(i + 2);
        if g.At(i) != '.' || !IsDigit(g.At(i + 1)) {
          return false;
        }
        i := SkipDigits(i + 2);
      }
      return true;
    }

    method ParseTopLevelMangledName() returns (ok: bool)
      requires Valid() && st.cur == 0 && o == INITIAL && !g.MangledName(0).Stray?
      modifies this, buf
      ensures Valid() && ok == g.Recognised()
      ensures ok ==> o == WriteSymbol(g)
    {
      ok := ParseMangledName();
      if !ok {
        return false;
      }
      if st.cur < |g.text| {
        var clone := IsFunctionCloneSuffix(st.cur);
        if clone {
          return true;
        }
        if g.At(st.cur) == '@' {  // a version suffix
          MaybeAppend(g.text[st.cur..]);
          return true;
        }
        return false;
      }
    }
  }

  /** The demangler entry point.  The length of `out` is the C parameter out_size.  The parse must
      not reach a <source-name> whose negative length takes the cursor back; see StrayExample.
      - With two cells more than the text and its NUL need, it succeeds exactly for the recognised symbols,
        and the text is in the buffer.
      - In any buffer, success means a recognised symbol, a text that is at most as long as the buffer, and
        that all but the last three cells are right.
      - While every abandoned attempt fits, the same holds to the last cell.
      - The last claim says what is in the buffer, whatever its size. */
  method Demangle(mangled: CString, out: array<char>) returns (ok: bool)
    requires !Itanium(mangled).MangledName(0).Stray?
    modifies out
    ensures ok ==> Itanium(mangled).Recognised()
    ensures var t := WriteSymbol(Itanium(mangled)).ideal;
      Itanium(mangled).Recognised() && |t.text| + 2 < out.Length ==>
        ok && t.text <= out[..] && (t.ended ==> out[|t.text|] == '\0')
    ensures var g := Itanium(mangled); var t := WriteSymbol(g).ideal;
      g.Recognised() && (Ends.EncodingSays(g, 2) || Ends.HasVersion(g)) && |t.text| + 2 < out.Length ==>
        out[|t.text|] == '\0'
    ensures var t := WriteSymbol(Itanium(mangled)).ideal;
      ok ==> |t.text| <= out.Length && forall k :: 0 <= k < |t.text| && k + 3 < out.Length ==> out[k] == t.text[k]
    ensures var t := WriteSymbol(Itanium(mangled)).ideal;
      t.waste == 0 || t.waste < out.Length ==>
        && (ok <==> Itanium(mangled).Recognised() && (t.need == 0 || t.need < out.Length))
        && (ok ==> t.text <= out[..])
        && (ok && t.ended ==> |t.text| < out.Length && out[|t.text|] == '\0')
    ensures Itanium(mangled).Recognised() ==>
      var b := Play(WriteSymbol(Itanium(mangled)).log, old(out[..]));
      out[..] == b.cells && ok == !b.overflowed
  {
    hide Play, WriteSymbol, Grammar.Recognised, Grammar.MangledName, Ends.EncodingSays, Ends.HasVersion;
    var state := new Demangler(Itanium(mangled), out);
    ok := state.ParseTopLevelMangledName();
    if ok {
      Fit.Fitting(state.o.ideal, state.Now());
      Ends.SymbolStart(state.g);
      if Ends.EncodingSays(state.g, 2) || Ends.HasVersion(state.g) {
        Ends.SymbolEnds(state.g);
      }
    }
    ok := ok && !state.st.overflowed;
  }
}
