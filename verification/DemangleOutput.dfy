/** What the demangler writes: for each nonterminal, the effect of a whole parsing attempt,
    including the attempts it abandons, on an output without a size limit, and the operations that the
    attempt makes on the real buffer.  Neither depends on the buffer. */
module DemangleOutput {
  import opened Lists
  import opened MangledText
  import opened DemangleGrammar
  import opened DemangleBuffer
  import Fit = DemangleFit

  /** The output without a limit, the flags of State, and the operations so far on the buffer. */
  datatype Out = Out(ideal: Fit.Ideal, nest: int, append: bool, log: seq<Op>)

  datatype Step = Step(at: Outcome, out: Out)

  /** The operations bring every buffer to where the output is. */
  ghost predicate Tracked(t: Fit.Ideal, log: seq<Op>)
  {
    Fit.Sound(t) && forall cells :: Fit.Follows(t, Play(log, cells))
  }

  ghost predicate Wf(o: Out) { Tracked(o.ideal, o.log) }

  /** Nothing that was written by the time of `o` is lost in `a`. */
  ghost predicate Grown(o: Out, a: Out)
  {
    && o.ideal.text <= a.ideal.text && o.ideal.need <= a.ideal.need && o.ideal.waste <= a.ideal.waste
    && (Wf(o) ==> Wf(a))
  }

  /** `a` is `o` again, after abandoned attempts. */
  ghost predicate Unwound(o: Out, a: Out)
  {
    && a == o.(ideal := o.ideal.(waste := a.ideal.waste, ended := a.ideal.ended), log := a.log)
    && Base(a.log) == Base(o.log)
  }

  /** What any attempt that starts in `o` and ends in `r` keeps. */
  ghost predicate Keeps(o: Out, r: Step)
  {
    && r.out.append == o.append && r.out.nest == o.nest && Grown(o, r.out)
    && (r.at.Reject? ==> Unwound(o, r.out))
    && (!o.append ==> r.out == o)
  }

  ghost predicate Writes(o: Out, r: Step, at: Outcome)
  {
    r.at == at && (!r.at.Stray? ==> Keeps(o, r))
  }

  /** After an alternative that was rejected, the next one goes on from where that left the output. */
  lemma KeepsOn(o: Out, a: Step, b: Step)
    ensures Keeps(o, a) && a.at.Reject? && Keeps(a.out, b) ==> Keeps(o, b)
  {
    hide Wf;
  }

  // ---------- primitive steps ----------

  /** MaybeAppendWithLength() on all of `str`. */
  function Emit(o: Out, str: string): (r: Out)
    ensures Keeps(o, Step(Accept(0), r))
  {
    if !o.append || str == "" then o else
    EmitTracked(o.ideal, o.log, str);
    o.(ideal := Fit.Emit(o.ideal, str), log := o.log + [Write(str)])
  }

  lemma EmitTracked(t: Fit.Ideal, log: seq<Op>, str: string)
    ensures Tracked(t, log) ==> Tracked(Fit.Emit(t, str), log + [Write(str)])
    ensures t.text <= Fit.Emit(t, str).text && t.need <= Fit.Emit(t, str).need && t.waste == Fit.Emit(t, str).waste
  {
    if str != "" { Fit.EmitText(t, str); }
    if Tracked(t, log) {
      Fit.EmitSound(t, str);
      forall cells
        ensures Fit.Follows(Fit.Emit(t, str), Play(log + [Write(str)], cells))
      {
        PlayStep(log, Write(str), cells);
        Fit.EmitFollows(t, Play(log, cells), str);
      }
    }
  }

  /** The text of the last identifier. */
  function PrevName(o: Out): string { Fit.NameText(o.ideal) }

  /** MaybeAppendWithLength() on prev_name. */
  function EmitName(o: Out): (r: Out)
    ensures Keeps(o, Step(Accept(0), r))
  {
    if !o.append then o else
    NameTracked(o.ideal, o.log);
    o.(ideal := Fit.Emit(o.ideal, PrevName(o)), log := o.log + [Repeat])
  }

  lemma NameTracked(t: Fit.Ideal, log: seq<Op>)
    ensures Tracked(t, log) ==> Tracked(Fit.Emit(t, Fit.NameText(t)), log + [Repeat])
    ensures var r := Fit.Emit(t, Fit.NameText(t)); t.text <= r.text && t.need <= r.need && t.waste == r.waste
  {
    var name := Fit.NameText(t);
    if name != "" { Fit.EmitText(t, name); }
    if Tracked(t, log) {
      Fit.EmitSound(t, name);
      forall cells
        ensures Fit.Follows(Fit.Emit(t, name), Play(log + [Repeat], cells))
      {
        PlayStep(log, Repeat, cells);
        Fit.RepeatFollows(t, Play(log, cells));
      }
    }
  }

  /** `*state = copy`, where the copy was taken in `o` and the attempt had come to `a`. */
  function Undo(o: Out, a: Out): (r: Out)
    ensures Unwound(o, a) ==> r == a
    ensures Unwound(o, r) && a.ideal.waste <= r.ideal.waste
  {
    o.(ideal := Fit.Undo(o.ideal, a.ideal), log := Return(a.log, o.log))
  }

  lemma UndoTracked(o: Out, a: Out)
    requires Wf(o) && Wf(a) && Grown(o, a)
    ensures Wf(Undo(o, a))
  {
    forall cells
      ensures Fit.Follows(Undo(o, a).ideal, Play(Undo(o, a).log, cells))
    {
      PlayReturn(a.log, o.log, cells);
      Fit.UndoFollows(o.ideal, Play(o.log, cells), a.ideal, Play(a.log, cells));
    }
  }

  /** The end of an alternative that restores the saved state when it is rejected. */
  function Closing(o: Out, a: Step): (r: Step)
    ensures r.at == a.at
    ensures a.at.Reject? && Grown(o, a.out) && (!o.append ==> a.out == o) ==> Keeps(o, r)
  {
    if a.at.Reject? then
      ClosingKeeps(o, a.out);
      Step(Reject, Undo(o, a.out))
    else a
  }

  lemma ClosingKeeps(o: Out, a: Out)
    ensures Grown(o, a) && (!o.append ==> a == o) ==> Keeps(o, Step(Reject, Undo(o, a)))
  {
    if Wf(o) && Grown(o, a) { UndoTracked(o, a); }
  }

  /** MaybeIncreaseNestLevel() */
  function Deepen(o: Out): Out { if o.nest > -1 then o.(nest := o.nest + 1) else o }

  /** MaybeAppendSeparator() */
  function Separate(o: Out): (r: Out)
    ensures Keeps(o, Step(Accept(0), r))
  {
    if o.nest >= 1 then Emit(o, "::") else o
  }

  /** MaybeCancelLastSeparator() */
  function Cancel(o: Out): Out
  {
    if o.nest >= 1 && o.append then o.(ideal := Fit.Cancel(o.ideal), log := o.log + [Cut]) else o
  }

  /** The state in which the loop goes on, when an item was read behind the separator. */
  function Deepened(o: Out, a: Out): (r: Out)
    requires Keeps(Separate(o), Step(Accept(0), a))
    ensures r == Deepen(a) && Keeps(o, Step(Accept(0), r.(nest := o.nest)))
  {
    Deepen(a)
  }

  /** Cancelling the separator that was appended in `o`, when nothing followed it. */
  function Cancelled(o: Out, a: Out): (r: Out)
    requires Keeps(Separate(o), Step(Reject, a))
    ensures r == Cancel(a) && r.ideal.text == o.ideal.text && Keeps(o, Step(Accept(0), r))
  {
    CancelledKeeps(o, a);
    Cancel(a)
  }

  lemma CancelledKeeps(o: Out, a: Out)
    requires Keeps(Separate(o), Step(Reject, a))
    ensures Cancel(a).ideal.text == o.ideal.text && Keeps(o, Step(Accept(0), Cancel(a)))
  {
    var s := Separate(o);
    if o.nest >= 1 && o.append {
      Fit.EmitText(o.ideal, "::");
      assert s.ideal.text == o.ideal.text + "::" && Base(s.log) == s.log;
      assert s.ideal.text[..|s.ideal.text| - 2] == o.ideal.text;
      if Wf(o) {
        forall cells
          ensures Fit.Follows(Cancel(a).ideal, Play(Cancel(a).log, cells))
        {
          PlayStep(o.log, Write("::"), cells);
          PlayBase(a.log, cells);
          PlayStep(a.log, Cut, cells);
          Fit.SeparatorAppended(o.ideal, Play(o.log, cells));
          Fit.CancelFollows(a.ideal, Play(a.log, cells));
        }
      }
    }
  }

  const AnonymousPrefix := "_GLOBAL__N_"

  /** What ParseIdentifier appends for an identifier. */
  function Shown(id: string): string
  {
    if |id| > |AnonymousPrefix| && AnonymousPrefix <= id then "(anonymous namespace)" else id
  }

  // ---------- nonterminals that append by themselves ----------

  function WriteSourceName(g: Grammar, i: nat, o: Out): (r: Step)
    requires i <= |g.text|
    ensures Writes(o, r, g.SourceName(i))
  {
    var at := g.SourceName(i);
    if !at.Accept? then Step(at, o) else
    var n := g.Number(i).end;
    Step(at, if n <= at.end then Emit(o, Shown(g.text[n..at.end])) else o)
  }

  function WriteLocalSourceName(g: Grammar, i: nat, o: Out): (r: Step)
    requires i <= |g.text|
    ensures Writes(o, r, g.LocalSourceName(i))
  {
    var at := g.LocalSourceName(i);
    if !at.Accept? then Step(at, o) else Step(at, WriteSourceName(g, i + 1, o).out)
  }

  function WriteCtorDtorName(g: Grammar, i: nat, o: Out): (r: Step)
    requires i <= |g.text|
    ensures Writes(o, r, g.CtorDtorName(i))
  {
    var at := g.CtorDtorName(i);
    if !at.Accept? then Step(at, o)
    else Step(at, EmitName(Emit(o, if g.At(i) == 'C' then "" else "~")))
  }

  function WriteBuiltinType(g: Grammar, i: nat, o: Out): (r: Step)
    requires i <= |g.text|
    ensures Writes(o, r, g.BuiltinType(i))
  {
    var at := g.BuiltinType(i);
    if !at.Accept? then Step(at, o) else
    var found := FindChar(g.builtins, 0, g.At(i));
    if found.Some? then Step(at, Emit(o, found.value)) else Step(at, WriteSourceName(g, i + 1, o).out)
  }

  function WriteTemplateParam(g: Grammar, i: nat, o: Out): (r: Step)
    requires i <= |g.text|
    ensures Writes(o, r, g.TemplateParam(i))
  {
    var at := g.TemplateParam(i);
    Step(at, if at.Accept? then Emit(o, "?") else o)
  }

  /** The expansion of a standard abbreviation such as `Sa`. */
  function WriteAbbreviation(name: string, o: Out): (r: Out)
    ensures Keeps(o, Step(Accept(0), r))
  {
    var s := Emit(o, "std");
    if name == "" then s else Emit(Emit(s, "::"), name)
  }

  function WriteSubstitution(g: Grammar, i: nat, o: Out): (r: Step)
    requires i <= |g.text|
    ensures Writes(o, r, g.Substitution(i))
  {
    var at := g.Substitution(i);
    if !at.Accept? then Step(at, o)
    else if g.At2(i, 'S', '_') || g.Expect(g.Run(i + 1, SeqIdChars), '_').Accept? then Step(at, Emit(o, "?"))
    else
      Step(at, WriteAbbreviation(FindChar(g.substitutions, 1, g.At(i + 1)).value, o))
  }

  function WriteTemplateTemplateParam(g: Grammar, i: nat, o: Out): (r: Step)
    requires i <= |g.text|
    ensures Writes(o, r, g.TemplateTemplateParam(i))
  {
    var a := WriteTemplateParam(g, i, o);
    if !a.at.Reject? then a else WriteSubstitution(g, i, a.out)
  }

  /** Template arguments appear as `<>`, whatever they are. */
  function WriteTemplateArgs(g: Grammar, i: nat, o: Out): (r: Step)
    requires i <= |g.text|
    ensures Writes(o, r, g.TemplateArgs(i))
  {
    var at := g.TemplateArgs(i);
    Step(at, if at.Accept? then Emit(o, "<>") else o)
  }

  /** A parameter list appears as `()`, whatever the parameters are. */
  function WriteBareFunctionType(g: Grammar, i: nat, o: Out): (r: Step)
    requires i <= |g.text|
    ensures Writes(o, r, g.BareFunctionType(i))
  {
    var at := g.BareFunctionType(i);
    Step(at, if at.Accept? then Emit(o, "()") else o)
  }

  /** The name of an operator: `operator+`, `operator new`, etc. */
  function EmitOperator(o: Out, symbol: string): (r: Out)
    ensures Keeps(o, Step(Accept(0), r))
  {
    var o1 := Emit(o, "operator");
    Emit(if symbol != "" && IsLower(symbol[0]) then Emit(o1, " ") else o1, symbol)
  }

  function WriteOperatorSymbol(g: Grammar, i: nat, o: Out): (r: Step)
    requires i + 2 <= |g.text|
    ensures Writes(o, r, g.OperatorSymbol(i))
  {
    var at := g.OperatorSymbol(i);
    if !at.Accept? then Step(at, o) else
    Step(at, EmitOperator(o, FindPair(g.operators, g.At(i), g.At(i + 1)).value))
  }

  // ---------- sequencing ----------

  function Tagged(g: Grammar, a: Step): (r: Step)
    requires a.at.Accept? ==> a.at.end <= |g.text|
    ensures r == Step(g.Tagged(a.at), a.out)
  {
    Step(g.Tagged(a.at), a.out)
  }

  function Expect(g: Grammar, a: Step, c: char): (r: Step)
    requires c != '\0'
    ensures r == Step(g.Expect(a.at, c), a.out)
  {
    Step(g.Expect(a.at, c), a.out)
  }

  // ---------- the mutually recursive nonterminals ----------

  function WriteMangledName(g: Grammar, i: nat, o: Out): (r: Step)
    requires i <= |g.text|
    ensures Writes(o, r, g.MangledName(i))
    decreases |g.text| - i, 0
  {
    if g.At2(i, '_', 'Z') then WriteEncoding(g, i + 2, o) else Step(Reject, o)
  }

  function WriteEncoding(g: Grammar, i: nat, o: Out): (r: Step)
    requires i <= |g.text|
    ensures Writes(o, r, g.Encoding(i))
    decreases |g.text| - i, 7
  {
    var f := WriteFunctionEncoding(g, i, o);
    if !f.at.Reject? then f else
    var n := WriteName(g, i, f.out);
    if !n.at.Reject? then n else WriteSpecialName(g, i, n.out)
  }

  function WriteFunctionEncoding(g: Grammar, i: nat, o: Out): (r: Step)
    requires i <= |g.text|
    ensures Writes(o, r, g.FunctionEncoding(i))
    decreases |g.text| - i, 6
  {
    var n := WriteName(g, i, o);
    Closing(o, if n.at.Accept? then WriteBareFunctionType(g, n.at.end, n.out) else n)
  }

  function WriteName(g: Grammar, i: nat, o: Out): (r: Step)
    requires i <= |g.text|
    ensures Writes(o, r, g.Name(i))
    decreases |g.text| - i, 5
  {
    var n := WriteNestedName(g, i, o);
    if !n.at.Reject? then n else
    var l := WriteLocalName(g, i, n.out);
    if !l.at.Reject? then l else
    var t := WriteTemplatedName(g, i, l.out);
    if !t.at.Reject? then t else WriteUnscopedName(g, i, t.out)
  }

  function WriteTemplatedName(g: Grammar, i: nat, o: Out): (r: Step)
    requires i <= |g.text|
    ensures Writes(o, r, g.TemplatedName(i))
    decreases |g.text| - i, 4
  {
    var u := WriteUnscopedTemplateName(g, i, o);
    Closing(o, if u.at.Accept? then WriteTemplateArgs(g, u.at.end, u.out) else u)
  }

  function WriteUnscopedName(g: Grammar, i: nat, o: Out): (r: Step)
    requires i <= |g.text|
    ensures Writes(o, r, g.UnscopedName(i))
    decreases |g.text| - i, 2
  {
    var u := WriteUnqualifiedName(g, i, o);
    if !u.at.Reject? then u
    else if g.At2(i, 'S', 't') then Closing(u.out, WriteUnqualifiedName(g, i + 2, Emit(u.out, "std::")))
    else u
  }

  function WriteUnscopedTemplateName(g: Grammar, i: nat, o: Out): (r: Step)
    requires i <= |g.text|
    ensures Writes(o, r, g.UnscopedTemplateName(i))
    decreases |g.text| - i, 3
  {
    var u := WriteUnscopedName(g, i, o);
    if !u.at.Reject? then u else WriteSubstitution(g, i, u.out)
  }

  function WriteNestedName(g: Grammar, i: nat, o: Out): (r: Step)
    requires i <= |g.text|
    ensures Writes(o, r, g.NestedName(i))
    decreases |g.text| - i, 0
  {
    if g.At(i) != 'N' then Step(Reject, o) else
    var p := WritePrefix(g, g.CvEnd(i + 1), false, o.(nest := 0));
    if p.at.Stray? then p else
    Closing(o, Expect(g, Step(p.at, p.out.(nest := o.nest)), 'E'))
  }

  function WritePrefixItem(g: Grammar, i: nat, o: Out): (r: Step)
    requires i <= |g.text|
    ensures Writes(o, r, g.PrefixItem(i))
    decreases |g.text| - i, 3
  {
    var t := WriteTemplateParam(g, i, o);
    if !t.at.Reject? then t else
    var s := WriteSubstitution(g, i, t.out);
    if !s.at.Reject? then s else WriteUnscopedName(g, i, s.out)
  }

  /** The loop of ParsePrefix.  It is the one nonterminal that leaves a changed nest level. */
  function WritePrefix(g: Grammar, i: nat, has: bool, o: Out): (r: Step)
    requires i <= |g.text|
    ensures Writes(o, Step(r.at, r.out.(nest := o.nest)), g.Prefix(i, has))
    decreases |g.text| - i, 4
  {
    hide Emit, Wf;
    var a := WritePrefixItem(g, i, Separate(o));
    if a.at.Accept? then WritePrefix(g, a.at.end, true, Deepened(o, a.out))
    else if a.at.Stray? then a
    else if has then WritePrefixArgs(g, i, Cancelled(o, a.out))
    else Step(Accept(i), Cancelled(o, a.out))
  }

  function WritePrefixArgs(g: Grammar, i: nat, o: Out): (r: Step)
    requires i <= |g.text|
    ensures Writes(o, Step(r.at, r.out.(nest := o.nest)), g.PrefixArgs(i))
    decreases |g.text| - i, 1
  {
    var t := WriteTemplateArgs(g, i, o);
    if t.at.Accept? then WritePrefix(g, t.at.end, false, t.out)
    else if t.at.Stray? then t else Step(Accept(i), t.out)
  }

  function WriteUnqualifiedName(g: Grammar, i: nat, o: Out): (r: Step)
    requires i <= |g.text|
    ensures Writes(o, r, g.UnqualifiedName(i))
    decreases |g.text| - i, 1
  {
    var op := WriteOperatorName(g, i, o);
    if !op.at.Reject? then op else
    var c := WriteCtorDtorName(g, i, op.out);
    if !c.at.Reject? then c else
    var s := Tagged(g, WriteSourceName(g, i, c.out));
    if !s.at.Reject? then s else Tagged(g, WriteLocalSourceName(g, i, s.out))
  }

  function WriteOperatorName(g: Grammar, i: nat, o: Out): (r: Step)
    requires i <= |g.text|
    ensures Writes(o, r, g.OperatorName(i))
    decreases |g.text| - i, 0
  {
    if i + 2 > |g.text| then Step(Reject, o) else
    var c := if g.At2(i, 'c', 'v') then WriteCast(g, i + 2, o) else Step(Reject, o);
    if !c.at.Reject? then c else
    var v := if g.At(i) == 'v' && IsDigit(g.At(i + 1)) then WriteSourceName(g, i + 2, c.out) else c;
    if !v.at.Reject? then v else WriteOperatorSymbol(g, i, v.out)
  }

  /** `cv` has been read: the type of a cast operator. */
  function WriteCast(g: Grammar, i: nat, o: Out): (r: Step)
    requires i <= |g.text|
    ensures Writes(o, r, g.Type(i))
    decreases |g.text| - i, 7
  {
    var t := WriteType(g, i, Emit(o, "operator ").(nest := 0));
    if t.at.Stray? then t else Closing(o, Step(t.at, t.out.(nest := o.nest)))
  }

  function WriteSpecialName(g: Grammar, i: nat, o: Out): (r: Step)
    requires i <= |g.text|
    ensures Writes(o, r, g.SpecialName(i))
    decreases |g.text| - i, 1
  {
    var a := if g.At(i) == 'T' && g.At(i + 1) in "VTIS" then WriteType(g, i + 2, o) else Step(Reject, o);
    if !a.at.Reject? then a else
    var b := if g.At2(i, 'T', 'c') then WriteOffsets2Encoding(g, i + 2, a.out) else a;
    if !b.at.Reject? then b else
    var c := if g.At2(i, 'G', 'V') then WriteName(g, i + 2, b.out) else b;
    if !c.at.Reject? then c else
    var d := if g.At(i) == 'T' then WriteOffsetEncoding(g, i + 1, c.out) else c;
    if !d.at.Reject? then d else WriteGnuSpecialName(g, i, d.out)
  }

  function WriteGnuSpecialName(g: Grammar, i: nat, o: Out): (r: Step)
    requires i <= |g.text|
    ensures Writes(o, r, g.GnuSpecialName(i))
    decreases |g.text| - i, 0
  {
    var e := if g.At2(i, 'T', 'C') then WriteConstructionVtable(g, i + 2, o) else Step(Reject, o);
    if !e.at.Reject? then e else
    var f := if g.At(i) == 'T' && g.At(i + 1) in "FJ" then WriteType(g, i + 2, e.out) else e;
    if !f.at.Reject? then f else
    var h := if g.At2(i, 'G', 'R') then WriteName(g, i + 2, f.out) else f;
    if !h.at.Reject? then h else
    var k := if g.At2(i, 'G', 'A') then WriteEncoding(g, i + 2, h.out) else h;
    if !k.at.Reject? then k
    else if g.At(i) == 'T' && g.At(i + 1) in "hv" then WriteOffsetEncoding(g, i + 2, k.out) else k
  }

  function WriteOffsetEncoding(g: Grammar, i: nat, o: Out): (r: Step)
    requires i <= |g.text|
    ensures Writes(o, r, g.OffsetEncoding(i))
    decreases |g.text| - i, 8
  {
    var a := g.CallOffset(i);
    if a.Accept? then WriteEncoding(g, a.end, o) else Step(a, o)
  }

  function WriteOffsets2Encoding(g: Grammar, i: nat, o: Out): (r: Step)
    requires i <= |g.text|
    ensures Writes(o, r, g.Offsets2Encoding(i))
    decreases |g.text| - i, 9
  {
    var a := g.CallOffset(i);
    if a.Accept? then WriteOffsetEncoding(g, a.end, o) else Step(a, o)
  }

  /** The base type is read with appending switched off. */
  function WriteConstructionVtable(g: Grammar, i: nat, o: Out): (r: Step)
    requires i <= |g.text|
    ensures Writes(o, r, g.ConstructionVtable(i))
    decreases |g.text| - i, 7
  {
    var t := WriteType(g, i, o);
    Closing(o, Step(g.ConstructionVtable(i), t.out))
  }

  function WriteType(g: Grammar, i: nat, o: Out): (r: Step)
    requires i <= |g.text|
    ensures Writes(o, r, g.Type(i))
    decreases |g.text| - i, 6
  {
    var m := WriteModifiedType(g, i, o);
    if !m.at.Reject? then m else
    var b := WriteBuiltinType(g, i, m.out);
    if !b.at.Reject? then b else
    var f := WriteFunctionType(g, i, b.out);
    if !f.at.Reject? then f else
    var n := WriteName(g, i, f.out);
    if !n.at.Reject? then n else
    var a := WriteArrayType(g, i, n.out);
    if !a.at.Reject? then a else
    var p := WritePointerToMemberType(g, i, a.out);
    if !p.at.Reject? then p else
    var s := WriteSubstitution(g, i, p.out);
    if !s.at.Reject? then s else
    var t := WriteTemplatedParam(g, i, s.out);
    if !t.at.Reject? then t else WriteTemplateParam(g, i, t.out)
  }

  function WriteModifiedType(g: Grammar, i: nat, o: Out): (r: Step)
    requires i <= |g.text|
    ensures Writes(o, r, g.ModifiedType(i))
    decreases |g.text| - i, 1
  {
    hide Keeps;
    var a := WriteQualifiedType(g, i, o);
    if !a.at.Reject? then a else
    var b := if g.At(i) in "OPRCG" then WriteType(g, i + 1, a.out) else a;
    KeepsOn(o, a, b);
    if !b.at.Reject? then b else
    var c := WriteExtendedType(g, i, b.out);
    KeepsOn(o, b, c);
    c
  }

  function WriteExtendedType(g: Grammar, i: nat, o: Out): (r: Step)
    requires i <= |g.text|
    ensures Writes(o, r, g.ExtendedType(i))
    decreases |g.text| - i, 0
  {
    hide Emit, Wf;
    var c := if g.At2(i, 'D', 'p') then WriteType(g, i + 2, o) else Step(Reject, o);
    if !c.at.Reject? then c else
    var d := if g.At(i) == 'D' && g.At(i + 1) in "tT" then WriteDecltype(g, i + 2, c.out) else c;
    if !d.at.Reject? then d
    else if g.At(i) == 'U' then WriteVendorType(g, i + 1, d.out) else d
  }

  /** <expression> E: the rest of a decltype */
  function WriteDecltype(g: Grammar, i: nat, o: Out): (r: Step)
    requires i <= |g.text|
    ensures Writes(o, r, g.Expect(g.Expression(i), 'E'))
    decreases |g.text| - i, 7
  {
    Closing(o, Expect(g, WriteExpression(g, i, o), 'E'))
  }

  function WriteQualifiedType(g: Grammar, i: nat, o: Out): (r: Step)
    requires i <= |g.text|
    ensures Writes(o, r, g.QualifiedType(i))
    decreases |g.text| - i, 0
  {
    var cv := g.CvQualifiers(i);
    if cv.Accept? then WriteType(g, cv.end, o) else Step(cv, o)
  }

  function WriteVendorType(g: Grammar, i: nat, o: Out): (r: Step)
    requires i <= |g.text|
    ensures Writes(o, r, g.VendorType(i))
    decreases |g.text| - i, 7
  {
    var a := WriteSourceName(g, i, o);
    if a.at.Accept? then Closing(o, WriteType(g, a.at.end, a.out)) else a
  }

  function WriteTemplatedParam(g: Grammar, i: nat, o: Out): (r: Step)
    requires i <= |g.text|
    ensures Writes(o, r, g.TemplatedParam(i))
    decreases |g.text| - i, 0
  {
    var p := WriteTemplateTemplateParam(g, i, o);
    Closing(o, if p.at.Accept? then WriteTemplateArgs(g, p.at.end, p.out) else p)
  }

  function WriteFunctionType(g: Grammar, i: nat, o: Out): (r: Step)
    requires i <= |g.text|
    ensures Writes(o, r, g.FunctionType(i))
    decreases |g.text| - i, 0
  {
    if g.At(i) != 'F' then Step(Reject, o) else
    var b := WriteBareFunctionType(g, if g.At(i + 1) == 'Y' then i + 2 else i + 1, o);
    Closing(o, Expect(g, b, 'E'))
  }

  function WriteArrayType(g: Grammar, i: nat, o: Out): (r: Step)
    requires i <= |g.text|
    ensures Writes(o, r, g.ArrayType(i))
    decreases |g.text| - i, 0
  {
    if g.At(i) != 'A' then Step(Reject, o) else
    var n := WriteNumberedArray(g, i + 1, o);
    if !n.at.Reject? then n else WriteExpressionArray(g, i + 1, n.out)
  }

  function WriteNumberedArray(g: Grammar, i: nat, o: Out): (r: Step)
    requires i <= |g.text|
    ensures Writes(o, r, g.NumberedArray(i))
    decreases |g.text| - i, 7
  {
    var n := g.Expect(g.Number(i), '_');
    if n.Accept? then WriteType(g, n.end, o) else Step(n, o)
  }

  function WriteExpressionArray(g: Grammar, i: nat, o: Out): (r: Step)
    requires i <= |g.text|
    ensures Writes(o, r, g.ExpressionArray(i))
    decreases |g.text| - i, 7
  {
    var e := WriteExpression(g, i, o);
    var d := Expect(g, if e.at.Reject? then Step(Accept(i), e.out) else e, '_');
    Closing(o, if d.at.Accept? then WriteType(g, d.at.end, d.out) else d)
  }

  function WritePointerToMemberType(g: Grammar, i: nat, o: Out): (r: Step)
    requires i <= |g.text|
    ensures Writes(o, r, g.PointerToMemberType(i))
    decreases |g.text| - i, 0
  {
    if g.At(i) != 'M' then Step(Reject, o) else
    var a := WriteType(g, i + 1, o);
    if a.at.Accept? then Closing(o, WriteType(g, a.at.end, a.out)) else a
  }

  function WriteExpression(g: Grammar, i: nat, o: Out): (r: Step)
    requires i <= |g.text|
    ensures Writes(o, r, g.Expression(i))
    decreases |g.text| - i, 2
  {
    hide Keeps;
    var t := WriteTemplateParam(g, i, o);
    if !t.at.Reject? then t else
    var p := WriteExprPrimary(g, i, t.out);
    KeepsOn(o, t, p);
    if !p.at.Reject? then p else
    var e3 := WriteOperation(g, i, 3, p.out);
    KeepsOn(o, p, e3);
    if !e3.at.Reject? then e3 else
    var e2 := WriteOperation(g, i, 2, e3.out);
    KeepsOn(o, e3, e2);
    if !e2.at.Reject? then e2 else
    var e1 := WriteOperation(g, i, 1, e2.out);
    KeepsOn(o, e2, e1);
    if !e1.at.Reject? then e1 else
    var st := if g.At2(i, 's', 't') then WriteType(g, i + 2, e1.out) else e1;
    KeepsOn(o, e1, st);
    if !st.at.Reject? || !g.At2(i, 's', 'r') then st else
    var srt := WriteScopedTemplate(g, i + 2, st.out);
    KeepsOn(o, st, srt);
    if !srt.at.Reject? then srt else
    var srn := WriteScopedName(g, i + 2, srt.out);
    KeepsOn(o, srt, srn);
    srn
  }

  function WriteOperation(g: Grammar, i: nat, count: nat, o: Out): (r: Step)
    requires i <= |g.text|
    ensures Writes(o, r, g.Operation(i, count))
    decreases |g.text| - i, 1
  {
    var op := WriteOperatorName(g, i, o);
    Closing(o, if op.at.Accept? then WriteExpressions(g, op.at.end, count, op.out) else op)
  }

  function WriteExpressions(g: Grammar, i: nat, count: nat, o: Out): (r: Step)
    requires i <= |g.text|
    ensures Writes(o, r, g.Expressions(i, count))
    decreases |g.text| - i, 3
  {
    if count == 0 then Step(Accept(i), o) else
    var e := WriteExpression(g, i, o);
    Closing(o, if e.at.Accept? then WriteExpressions(g, e.at.end, count - 1, e.out) else e)
  }

  function WriteScopedName(g: Grammar, i: nat, o: Out): (r: Step)
    requires i <= |g.text|
    ensures Writes(o, r, g.ScopedName(i))
    decreases |g.text| - i, 7
  {
    var a := WriteType(g, i, o);
    Closing(o, if a.at.Accept? then WriteUnqualifiedName(g, a.at.end, a.out) else a)
  }

  function WriteScopedTemplate(g: Grammar, i: nat, o: Out): (r: Step)
    requires i <= |g.text|
    ensures Writes(o, r, g.ScopedTemplate(i))
    decreases |g.text| - i, 8
  {
    var a := WriteScopedName(g, i, o);
    Closing(o, if a.at.Accept? then WriteTemplateArgs(g, a.at.end, a.out) else a)
  }

  function WriteExprPrimary(g: Grammar, i: nat, o: Out): (r: Step)
    requires i <= |g.text|
    ensures Writes(o, r, g.ExprPrimary(i))
    decreases |g.text| - i, 0
  {
    if g.At(i) != 'L' then Step(Reject, o) else
    var n := WriteLiteral(g, i + 1, false, o);
    if !n.at.Reject? then n else
    var f := WriteLiteral(g, i + 1, true, n.out);
    if !f.at.Reject? then f else
    var m := Closing(f.out, Expect(g, WriteMangledName(g, i + 1, f.out), 'E'));
    if !m.at.Reject? then m
    else if g.At(i + 1) == 'Z' then Closing(m.out, Expect(g, WriteEncoding(g, i + 2, m.out), 'E')) else m
  }

  function WriteLiteral(g: Grammar, i: nat, float: bool, o: Out): (r: Step)
    requires i <= |g.text|
    ensures Writes(o, r, g.Literal(i, float))
    decreases |g.text| - i, 7
  {
    Closing(o, Step(g.Literal(i, float), WriteType(g, i, o).out))
  }

  function WriteLocalName(g: Grammar, i: nat, o: Out): (r: Step)
    requires i <= |g.text|
    ensures Writes(o, r, g.LocalName(i))
    decreases |g.text| - i, 0
  {
    if g.At(i) != 'Z' then Step(Reject, o) else
    var n := WriteLocalEntity(g, i + 1, o);
    if !n.at.Reject? then n else WriteLocalString(g, i + 1, n.out)
  }

  function WriteLocalEntity(g: Grammar, i: nat, o: Out): (r: Step)
    requires i <= |g.text|
    ensures Writes(o, r, g.LocalEntity(i))
    decreases |g.text| - i, 8
  {
    var e := Expect(g, WriteEncoding(g, i, o), 'E');
    Closing(o, if e.at.Accept? then WriteEntityName(g, e.at.end, e.out) else e)
  }

  function WriteEntityName(g: Grammar, i: nat, o: Out): (r: Step)
    requires i <= |g.text|
    ensures Writes(o, r, g.EntityName(i))
    decreases |g.text| - i, 6
  {
    Closing(o, Step(g.EntityName(i), WriteName(g, i, Emit(o, "::")).out))
  }

  function WriteLocalString(g: Grammar, i: nat, o: Out): (r: Step)
    requires i <= |g.text|
    ensures Writes(o, r, g.LocalString(i))
    decreases |g.text| - i, 8
  {
    var s := Expect(g, Expect(g, WriteEncoding(g, i, o), 'E'), 's');
    if s.at.Accept? then Step(Accept(g.AfterDiscriminator(s.at.end)), s.out) else Closing(o, s)
  }

  // ---------- the whole symbol ----------

  /** InitState() */
  const INITIAL := Out(Fit.Ideal("", NoName, 0, 0, false), -1, true, [])

  /** The output state in which ParseTopLevelMangledName ends. */
  function WriteSymbol(g: Grammar): (o: Out)
    ensures g.Recognised() ==> Wf(o)
  {
    var m := WriteMangledName(g, 0, INITIAL);
    if m.at.Accept? && !g.CloneSuffix(m.at.end) && g.At(m.at.end) == '@'
    then Emit(m.out, g.text[m.at.end..]) else m.out
  }

  /** The text of a symbol is that of its encoding: a clone suffix is dropped, a version suffix follows as it is. */
  lemma SymbolText(g: Grammar)
    requires g.Recognised()
    ensures var end := g.MangledName(0).end;
      WriteSymbol(g).ideal.text ==
        WriteEncoding(g, 2, INITIAL).out.ideal.text + if g.CloneSuffix(end) then "" else g.text[end..]
  {
    hide Grammar.Encoding, WriteEncoding, Emit, Wf;
    var m := WriteMangledName(g, 0, INITIAL);
    if g.CloneSuffix(m.at.end) {
      assert m.out.ideal.text + "" == m.out.ideal.text;
    } else {
      VersionText(m.out, g.text[m.at.end..]);
    }
  }

  lemma VersionText(o: Out, suffix: string)
    requires o.append && suffix != "" && suffix[0] == '@'
    ensures Emit(o, suffix).ideal.text == o.ideal.text + suffix
  {
    Fit.EmitText(o.ideal, suffix);
    assert "" + suffix == suffix;
  }
}
