/** Two symbols on which the demangler succeeds and yet does not leave the demangled name as a C string:
    in the one an abandoned attempt damages the text in a buffer that has just enough room for it, in the
    other nothing terminates the text, however large the buffer is. */
module DemangleDamage {
  import opened Lists
  import opened MangledText
  import opened DemangleGrammar
  import opened DemangleBuffer
  import opened DemangleOutput
  import opened DemangleTables
  import opened Demangling
  import Ends = DemangleEnds
  import Fit = DemangleFit
  import Reading = DemangleReading

  // ---------- what cannot begin here ----------

  /** No <operator-name> begins with these characters. */
  predicate NoOperatorAt(g: Grammar, i: nat)
  {
    !(IsLower(g.At(i)) && IsAlpha(g.At(i + 1))) && !(g.At(i) == 'v' && IsDigit(g.At(i + 1)))
  }

  /** No <unqualified-name> begins with these characters. */
  predicate NoNameAt(g: Grammar, i: nat)
  {
    var c, d := g.At(i), g.At(i + 1);
    NoOperatorAt(g, i) && !IsDigit(c) && !(c == 'n' && IsDigit(d)) && c !in "CDL"
  }

  lemma NoOperator(g: Grammar, i: nat, o: Out)
    requires i <= |g.text| && NoOperatorAt(g, i)
    ensures g.OperatorName(i) == Reject && WriteOperatorName(g, i, o) == Step(Reject, o)
  {}

  lemma NoUnqualified(g: Grammar, i: nat, o: Out)
    requires i <= |g.text| && NoNameAt(g, i)
    ensures g.UnqualifiedName(i) == Reject && WriteUnqualifiedName(g, i, o) == Step(Reject, o)
  {
    NoOperator(g, i, o);
  }

  lemma NoUnscoped(g: Grammar, i: nat, o: Out)
    requires i <= |g.text| && NoNameAt(g, i) && !g.At2(i, 'S', 't')
    ensures WriteUnscopedName(g, i, o) == Step(Reject, o)
  {
    hide Grammar.UnqualifiedName, WriteUnqualifiedName;
    NoUnqualified(g, i, o);
  }

  lemma NoTemplateArgs(g: Grammar, i: nat, o: Out)
    requires i <= |g.text| && g.At(i) != 'I'
    ensures g.TemplateArgs(i) == Reject && WriteTemplateArgs(g, i, o) == Step(Reject, o)
  {}

  lemma NoOperation(g: Grammar, i: nat, count: nat, o: Out)
    requires i <= |g.text| && NoOperatorAt(g, i)
    ensures WriteOperation(g, i, count, o) == Step(Reject, o)
  {
    NoOperator(g, i, o);
    Reading.UndoNothing(o);
  }

  // ---------- a cast operator that ends in nothing ----------

  /** The builtin types and operators that the examples meet. */
  ghost predicate Knows(g: Grammar)
  {
    && FindPair(g.operators, 's', 't').Some? && FindPair(g.operators, 'r', 'S').Some?
    && FindChar(g.builtins, 0, 'N').None? && FindChar(g.builtins, 0, 'S').None? && FindChar(g.builtins, 0, 'u').None?
  }

  lemma NotBuiltin(c: char)
    requires c == 'N' || c == 'S' || c == 'u'
    ensures FindChar(BUILTIN_TYPES, 0, c).None?
  {
    hide FindChar;
    forall p | p in BUILTIN_TYPES ensures p.At(0) != c {}
  }

  lemma IsOperator(table: AbbrevTable, k: nat, c0: char, c1: char)
    requires k < |table| && table[k].abbrev == [c0, c1]
    ensures FindPair(table, c0, c1).Some?
  {
    hide FindPair;
    var p := table[k];
    assert p in table && p.At(0) == c0 && p.At(1) == c1;
  }

  lemma SizeofAndShift()
    ensures |OPERATORS| == 49 && OPERATORS[47].abbrev == "st" && OPERATORS[29].abbrev == "rS"
  {}

  lemma ItaniumKnows(mangled: CString)
    ensures Knows(Itanium(mangled)) && Itanium(mangled).text == mangled
  {
    NotBuiltin('N');
    NotBuiltin('S');
    NotBuiltin('u');
    ItaniumOperators(mangled);
    hide FindChar, FindPair;
  }

  lemma ItaniumOperators(mangled: CString)
    ensures FindPair(Itanium(mangled).operators, 's', 't').Some?
    ensures FindPair(Itanium(mangled).operators, 'r', 'S').Some?
  {
    hide FindPair;
    var table := Itanium(mangled).operators;
    assert table == OPERATORS;
    SizeofAndShift();
    IsOperator(table, 47, 's', 't');
    IsOperator(table, 29, 'r', 'S');
  }

  /** `operator decltype(sizeof(""))`, with an empty vendor type */
  ghost predicate IsSizeof(g: Grammar) { g.text == "_ZcvDtstu0E" && Knows(g) }

  lemma NoOperand(g: Grammar, o: Out)
    requires IsSizeof(g)
    ensures WriteExpression(g, 8, o) == Step(Reject, o)
  {
    hide Writes, Keeps;
    hide WriteOperation, Grammar.Operation;
    NoOperation(g, 8, 3, o);
    NoOperation(g, 8, 2, o);
    NoOperation(g, 8, 1, o);
  }

  /** A source name whose length has one digit. */
  lemma OneDigit(g: Grammar, i: nat, o: Out)
    requires i < |g.text| && IsDigit(g.text[i]) && !IsDigit(g.At(i + 1))
    requires i + 1 + DigitValue(g.text[i]) <= |g.text|
    ensures var end := i + 1 + DigitValue(g.text[i]);
      && g.NumberValue(i) == DigitValue(g.text[i]) && g.SourceName(i) == Accept(end)
      && WriteSourceName(g, i, o) == Step(Accept(end), Emit(o, Shown(g.text[i + 1..end])))
  {
    hide Emit, Shown;
    assert g.RunEnd(i + 1, Digits) == i + 1 && g.RunEnd(i, Digits) == i + 1;
    assert g.text[i..i + 1] == [g.text[i]] && [g.text[i]][..0] == "";
    assert DecimalValue([g.text[i]]) == DecimalValue("") * 10 + DigitValue(g.text[i]);
    assert g.NumberValue(i) == DigitValue(g.text[i]);
  }

  lemma EmptySource(g: Grammar, i: nat, o: Out)
    requires i < |g.text| && g.text[i] == '0' && !IsDigit(g.At(i + 1))
    ensures g.NumberValue(i) == 0 && WriteSourceName(g, i, o) == Step(Accept(i + 1), o)
  {
    OneDigit(g, i, o);
    assert g.text[i + 1..i + 1] == "";
  }

  lemma EmptyType(g: Grammar, o: Out)
    requires IsSizeof(g)
    ensures WriteType(g, 8, o) == Step(Accept(10), o)
  {
    hide Writes, Keeps;
    EmptySource(g, 9, o);
    hide Grammar.SourceName, Grammar.NumberValue, WriteSourceName;
    assert WriteModifiedType(g, 8, o) == Step(Reject, o);
  }

  function Symbol(g: Grammar, c0: char, c1: char): string
  {
    var found := FindPair(g.operators, c0, c1);
    if found.Some? then found.value else ""
  }

  /** The state after the operator name and an operand were tried in vain. */
  function Tried(g: Grammar, o: Out): Out { Undo(o, EmitOperator(o, Symbol(g, 's', 't'))) }

  lemma TryOperation(g: Grammar, count: nat, o: Out)
    requires IsSizeof(g) && count > 0
    ensures WriteOperation(g, 6, count, o) == Step(Reject, Tried(g, o))
  {
    hide Writes, Keeps;
    hide WriteExpression, Grammar.Expression, EmitOperator;
    assert WriteOperatorName(g, 6, o) == Step(Accept(8), EmitOperator(o, Symbol(g, 's', 't')));
    var a := EmitOperator(o, Symbol(g, 's', 't'));
    NoOperand(g, a);
    Reading.UndoNothing(a);
  }

  lemma SizeofExpression(g: Grammar, o: Out)
    requires IsSizeof(g)
    ensures WriteExpression(g, 6, o) == Step(Accept(10), Tried(g, Tried(g, Tried(g, o))))
  {
    hide Writes, Keeps;
    hide WriteOperation, Grammar.Operation, WriteType, Grammar.Type, Tried;
    TryOperation(g, 3, o);
    TryOperation(g, 2, Tried(g, o));
    TryOperation(g, 1, Tried(g, Tried(g, o)));
    EmptyType(g, Tried(g, Tried(g, Tried(g, o))));
  }

  /** The state after the whole cast operator */
  function Cast(g: Grammar, o: Out): Out
  {
    Tried(g, Tried(g, Tried(g, Emit(o, "operator ").(nest := 0)))).(nest := o.nest)
  }

  lemma SizeofType(g: Grammar, o: Out)
    requires IsSizeof(g)
    ensures WriteType(g, 4, o) == Step(Accept(11), Tried(g, Tried(g, Tried(g, o))))
  {
    hide Writes, Keeps;
    hide WriteExpression, Grammar.Expression, Tried;
    SizeofExpression(g, o);
    assert WriteDecltype(g, 6, o) == Step(Accept(11), Tried(g, Tried(g, Tried(g, o))));
    assert WriteExtendedType(g, 4, o) == WriteDecltype(g, 6, o);
    assert WriteModifiedType(g, 4, o) == WriteDecltype(g, 6, o);
  }

  lemma CastName(g: Grammar, end: nat, o: Out, r: Out)
    requires |g.text| >= 4 && g.text[2] == 'c' && g.text[3] == 'v' && end == |g.text|
    requires WriteCast(g, 4, o) == Step(Accept(end), r)
    ensures WriteUnscopedName(g, 2, o) == Step(Accept(end), r)
  {
    hide WriteCast;
    assert WriteOperatorName(g, 2, o) == Step(Accept(end), r);
    assert WriteUnqualifiedName(g, 2, o) == Step(Accept(end), r);
  }

  lemma CastIsName(g: Grammar, o: Out)
    requires |g.text| > 4 && g.text[2] == 'c' && g.text[3] == 'v'
    requires forall r :: WriteCast(g, 4, r).at == Accept(|g.text|)
    ensures WriteName(g, 2, o) == Step(Accept(|g.text|), WriteCast(g, 4, Undo(o, WriteCast(g, 4, o).out)).out)
  {
    hide WriteCast, WriteUnscopedName, Grammar.UnscopedName, Undo;
    var end, c := |g.text|, WriteCast(g, 4, o);
    CastName(g, end, o, c.out);
    NoTemplateArgs(g, end, c.out);
    assert WriteTemplatedName(g, 2, o) == Step(Reject, Undo(o, c.out));
    var u := Undo(o, c.out);
    CastName(g, end, u, WriteCast(g, 4, u).out);
  }

  /** Of all the attempts at a cast operator, only the last one counts, but for the characters in the buffer. */
  lemma CastSymbol(g: Grammar) returns (x: Out)
    requires |g.text| > 4 && g.text[..4] == "_Zcv"
    requires forall r :: WriteCast(g, 4, r).at == Accept(|g.text|)
    ensures Unwound(INITIAL, x) && g.Recognised() && WriteSymbol(g) == WriteCast(g, 4, x).out
  {
    hide WriteCast, WriteName, Grammar.Name, Undo;
    assert g.text[0] == g.text[..4][0] == '_' && g.text[1] == g.text[..4][1] == 'Z';
    assert g.text[2] == g.text[..4][2] == 'c' && g.text[3] == g.text[..4][3] == 'v';
    CastIsName(g, INITIAL);
    Reading.NoTypeHere(g, |g.text|);
    var n := WriteName(g, 2, INITIAL).out;
    var f := Undo(INITIAL, n);
    assert WriteFunctionEncoding(g, 2, INITIAL) == Step(Reject, f);
    CastIsName(g, f);
    x := Undo(f, WriteCast(g, 4, f).out);
    assert WriteEncoding(g, 2, INITIAL) == WriteName(g, 2, f);
    assert WriteMangledName(g, 0, INITIAL) == Step(Accept(|g.text|), WriteCast(g, 4, x).out);
  }

  // ---------- the buffer ----------

  lemma EmitPlay(o: Out, str: string, cells: seq<char>)
    requires o.append && str != ""
    ensures Play(Emit(o, str).log, cells) == Play(o.log, cells).Emit(str)
  {
    PlayStep(o.log, Write(str), cells);
  }

  lemma UndoPlay(o: Out, a: Out, cells: seq<char>)
    ensures Play(Undo(o, a).log, cells) == Play(o.log, cells).(cells := Play(a.log, cells).cells)
  {
    PlayReturn(a.log, o.log, cells);
  }

  /** The beginning of the last attempt */
  lemma StartPlay(x: Out, cells: seq<char>)
    requires Unwound(INITIAL, x)
    ensures x.append && x.ideal.text == ""
    ensures Play(x.log, cells) == Buffer(Play(x.log, cells).cells, 0, NoName, false)
  {
    PlayBase(x.log, cells);
  }

  lemma OperatorWord(x: Out, cells: seq<char>)
    requires Unwound(INITIAL, x) && |cells| > 10
    ensures var o := Emit(x, "operator ").(nest := 0); var b := Play(o.log, cells);
      && o.append && o.ideal.text == "operator " && b.cur == 9 && !b.overflowed && b.cells[..9] == "operator "
  {
    StartPlay(x, cells);
    EmitPlay(x, "operator ", cells);
    var b := Play(x.log, cells);
    Fit.BufferEmit(b, "operator ");
    Fit.EmitText(x.ideal, "operator ");
    assert "" + "operator " == "operator ";
    hide Play;
  }

  /** What is before the cursor stays. */
  ghost predicate Later(b: Buffer, c: Buffer)
  {
    b.cur <= c.cur && |c.cells| == |b.cells| && forall k :: 0 <= k < b.cur && k < |b.cells| ==> c.cells[k] == b.cells[k]
  }

  lemma EmitLater(o: Out, str: string, cells: seq<char>)
    requires o.append
    ensures Later(Play(o.log, cells), Play(Emit(o, str).log, cells))
    ensures |o.ideal.text| <= |Emit(o, str).ideal.text| && Emit(o, str).append
  {
    if str != "" {
      EmitPlay(o, str, cells);
      hide Play, Buffer.Emit, Fit.Appended, Later;
      var b := Play(o.log, cells);
      Fit.BufferEmit(b, str);
      AppendedLater(b, Fit.BufferPad(b, str[0]) + str, b.Emit(str));
    }
  }

  lemma LaterStill(b: Buffer, c: Buffer, d: Buffer)
    requires Later(b, c) && Later(c, d)
    ensures Later(b, d)
    ensures b.cur < c.cur && b.cur < |b.cells| ==> d.cells[b.cur] == c.cells[b.cur]
  {}

  lemma AppendedLater(b: Buffer, all: string, c: Buffer)
    requires Fit.Appended(b, all, c)
    ensures Later(b, c)
    ensures all != "" && b.cur + 1 < |b.cells| ==> b.cur < c.cur && c.cells[b.cur] == all[0]
  {}

  lemma FirstCell(b: Buffer, str: string)
    requires str != "" && str[0] != '<' && b.Bounded() && b.cur + 1 < |b.cells|
    ensures Later(b, b.Emit(str)) && b.cur < b.Emit(str).cur && b.Emit(str).cells[b.cur] == str[0]
  {
    Fit.BufferEmit(b, str);
    hide Buffer.Emit, Buffer.Spaced, Fit.Appended, Later;
    assert Fit.BufferPad(b, str[0]) == "" && "" + str == str;
    AppendedLater(b, str, b.Emit(str));
  }

  lemma EmitLonger(o: Out, str: string)
    requires o.append && str != "" && str[0] != '<'
    ensures |Emit(o, str).ideal.text| == |o.ideal.text| + |str| && Emit(o, str).append
  {
    Fit.EmitText(o.ideal, str);
    assert "" + str == str;
  }

  lemma FirstChar(o: Out, str: string, cells: seq<char>)
    requires o.append && str != "" && str[0] != '<' && Play(o.log, cells).cur + 1 < |cells|
    ensures var b, c := Play(o.log, cells), Play(Emit(o, str).log, cells);
      Later(b, c) && b.cur < c.cur && c.cells[b.cur] == str[0]
    ensures |Emit(o, str).ideal.text| == |o.ideal.text| + |str| && Emit(o, str).append
  {
    hide Emit, Play, Buffer.Emit, Later;
    EmitPlay(o, str, cells);
    EmitLonger(o, str);
    FirstCell(Play(o.log, cells), str);
  }

  /** An operator name that is appended where there is room for one more character */
  lemma OperatorCells(o: Out, symbol: string, cells: seq<char>)
    requires o.append && Play(o.log, cells).cur + 1 < |cells|
    ensures var b, c := Play(o.log, cells), Play(EmitOperator(o, symbol).log, cells);
      Later(b, c) && c.cells[b.cur] == 'o'
    ensures |EmitOperator(o, symbol).ideal.text| > |o.ideal.text|
  {
    hide Writes, Keeps;
    hide Play, Emit, Later;
    var o1 := Emit(o, "operator");
    var o2 := if symbol != "" && IsLower(symbol[0]) then Emit(o1, " ") else o1;
    var b, b1, b2 := Play(o.log, cells), Play(o1.log, cells), Play(o2.log, cells);
    FirstChar(o, "operator", cells);
    if o2 != o1 {
      EmitLater(o1, " ", cells);
      LaterStill(b, b1, b2);
    }
    EmitLater(o2, symbol, cells);
    LaterStill(b, b2, Play(EmitOperator(o, symbol).log, cells));
    Ahead(b1, b2);
  }

  lemma Ahead(b: Buffer, c: Buffer)
    requires Later(b, c)
    ensures b.cur <= c.cur && |c.cells| == |b.cells|
  {}

  // ---------- nothing terminates the text ----------

  /** Undoing the attempt leaves its characters behind the text. */
  lemma TriedPlay(g: Grammar, o: Out, cells: seq<char>)
    requires o.append && Play(o.log, cells).cur == 9 && |cells| > 10
    ensures var b, c := Play(o.log, cells), Play(Tried(g, o).log, cells);
      && c == b.(cells := c.cells) && c.cells[9] == 'o' && c.cells[..9] == b.cells[..9]
    ensures Tried(g, o).append && Tried(g, o).ideal.text == o.ideal.text && !Tried(g, o).ideal.ended
  {
    hide Play, EmitOperator, Symbol, Undo, Later;
    var symbol := Symbol(g, 's', 't');
    var a := EmitOperator(o, symbol);
    OperatorCells(o, symbol, cells);
    UndoPlay(o, a, cells);
    UndoneLonger(o, a);
    LaterPrefix(Play(o.log, cells), Play(a.log, cells));
  }

  lemma LaterPrefix(b: Buffer, c: Buffer)
    requires Later(b, c) && b.cur <= |b.cells|
    ensures |c.cells| == |b.cells| && c.cells[..b.cur] == b.cells[..b.cur]
  {}

  lemma UndoneLonger(o: Out, a: Out)
    ensures Undo(o, a).append == o.append && Undo(o, a).ideal.text == o.ideal.text
    ensures |a.ideal.text| != |o.ideal.text| ==> !Undo(o, a).ideal.ended
  {}

  /** The text is `operator `, and behind it there is an `o` of an abandoned attempt. */
  lemma Unterminated(g: Grammar, cells: seq<char>)
    requires IsSizeof(g) && |cells| >= 12
    ensures g.Recognised() && WriteSymbol(g).ideal.text == "operator " && !WriteSymbol(g).ideal.ended
    ensures var b := Play(WriteSymbol(g).log, cells);
      !b.overflowed && b.cells[..9] == "operator " && b.cells[9] == 'o'
  {
    hide Tried, Play, WriteType, WriteSymbol, Grammar.Recognised, Grammar.Type;
    forall r ensures WriteCast(g, 4, r) == Step(Accept(11), Cast(g, r)) {
      SizeofType(g, Emit(r, "operator ").(nest := 0));
    }
    assert g.text[..4] == "_Zcv";
    var x := CastSymbol(g);
    var o := Emit(x, "operator ").(nest := 0);
    OperatorWord(x, cells);
    TriedPlay(g, o, cells);
    TriedPlay(g, Tried(g, o), cells);
    TriedPlay(g, Tried(g, Tried(g, o)), cells);
  }

  // ---------- the condition for the NUL is not exact for casts ----------

  lemma NoType(g: Grammar, o: Out)
    requires g.text == "_Zcvu0" && Knows(g)
    ensures WriteType(g, 4, o) == Step(Accept(6), o) && !Ends.TypeSays(g, 4)
  {
    hide Writes, Keeps;
    EmptySource(g, 5, o);
    hide Grammar.SourceName, Grammar.NumberValue, WriteSourceName;
    assert WriteModifiedType(g, 4, o) == Step(Reject, o);
  }

  lemma EmptyCast(g: Grammar, o: Out)
    requires g.text == "_Zcvu0" && Knows(g)
    ensures WriteCast(g, 4, o) == Step(Accept(6), Emit(o, "operator ").(nest := o.nest))
    ensures g.Type(4) == Accept(6) && !Ends.TypeSays(g, 4)
  {
    hide Emit, Grammar.Type, WriteType, Ends.TypeSays;
    NoType(g, Emit(o, "operator ").(nest := 0));
  }

  lemma CastSaysNothing(g: Grammar)
    requires g.text == "_Zcvu0" && g.Type(4) == Accept(6) && !Ends.TypeSays(g, 4)
    ensures !Ends.EncodingSays(g, 2) && !Ends.HasVersion(g)
  {
    hide Grammar.Type, Ends.TypeSays;
    Reading.NoTypeHere(g, 6);
    assert g.OperatorName(2) == Accept(6) && !Ends.OperatorSays(g, 2);
    assert g.UnqualifiedName(2) == Accept(6) && !Ends.UnqualifiedSays(g, 2);
    assert g.UnscopedName(2) == Accept(6) && !Ends.UnscopedSays(g, 2);
    assert g.TemplatedName(2) == Reject;
    assert g.Name(2) == Accept(6) && !Ends.NameSays(g, 2);
    assert g.FunctionEncoding(2) == Reject;
    assert g.Encoding(2) == Accept(6);
  }

  /** A cast to an empty type ends in nothing; but when no attempt at the type wrote anything, the NUL behind
      the word `operator ` is still there. */
  lemma EmptyCastEnds(g: Grammar)
    requires g.text == "_Zcvu0" && Knows(g)
    ensures g.Recognised() && !Ends.EncodingSays(g, 2) && !Ends.HasVersion(g) && WriteSymbol(g).ideal.ended
  {
    hide Emit, Grammar.Recognised, Grammar.Type, WriteCast, WriteSymbol, Play, Knows;
    hide Ends.TypeSays, Ends.EncodingSays, Ends.HasVersion;
    forall r ensures WriteCast(g, 4, r) == Step(Accept(6), Emit(r, "operator ").(nest := r.nest)) {
      EmptyCast(g, r);
    }
    EmptyCast(g, INITIAL);
    CastSaysNothing(g);
    assert g.text[..4] == "_Zcv";
    var x := CastSymbol(g);
    EmptyCast(g, x);
    Ends.EmitEnds(x, "operator ");
  }

  // ---------- an attempt that damages the text ----------

  /** `operator decltype(sizeof(restrict S_))`, where the seq-id of the substitution reads like a literal of
      the type A behind `>>=` */
  ghost predicate IsShift(g: Grammar) { g.text == "_ZcvDtstrSLN1AE_E" && Knows(g) }

  /** The name A between N and E */
  function Nest(o: Out): Out
  {
    var a := Emit(o.(nest := 0), "A");
    Cancel(Emit(a.(nest := 1), "::")).(nest := o.nest)
  }

  lemma SourceA(g: Grammar, o: Out)
    requires IsShift(g)
    ensures g.SourceName(12) == Accept(14) && WriteSourceName(g, 12, o) == Step(Accept(14), Emit(o, "A"))
  {
    OneDigit(g, 12, o);
    hide Grammar.SourceName, WriteSourceName, Emit;
    assert g.text[13..14] == "A";
  }

  lemma NameA(g: Grammar, o: Out)
    requires IsShift(g)
    ensures WriteUnqualifiedName(g, 12, o) == Step(Accept(14), Emit(o, "A"))
  {
    hide Grammar.SourceName, WriteSourceName, Grammar.OperatorName, WriteOperatorName, Emit, Writes, Keeps;
    SourceA(g, o);
    NoOperator(g, 12, o);
    assert g.AbiTags(14) == Reject;
  }

  lemma ItemA(g: Grammar, o: Out)
    requires IsShift(g)
    ensures WritePrefixItem(g, 12, o) == Step(Accept(14), Emit(o, "A"))
  {
    hide Grammar.UnqualifiedName, WriteUnqualifiedName, Emit, Writes, Keeps;
    NameA(g, o);
    assert WriteUnscopedName(g, 12, o) == WriteUnqualifiedName(g, 12, o);
  }

  lemma NestedA(g: Grammar, o: Out)
    requires IsShift(g)
    ensures WriteNestedName(g, 11, o) == Step(Accept(15), Nest(o))
  {
    hide WritePrefixItem, Emit;
    var p := o.(nest := 0);
    ItemA(g, p);
    var a := Emit(p, "A").(nest := 1);
    assert WritePrefix(g, 12, false, p) == WritePrefix(g, 14, true, a);
    Reading.NothingAtE(g, 14, true, a);
  }

  /** The state after a literal of the type A was tried in vain */
  function TriedLiteral(o: Out): Out { Undo(o, Nest(o)) }

  lemma TypeA(g: Grammar, o: Out)
    requires IsShift(g)
    ensures WriteType(g, 11, o) == Step(Accept(15), Nest(o))
  {
    hide Writes, Keeps;
    hide WriteNestedName, Grammar.NestedName, Nest;
    NestedA(g, o);
    assert WriteModifiedType(g, 11, o) == Step(Reject, o);
    assert WriteBuiltinType(g, 11, o) == Step(Reject, o);
    assert WriteFunctionType(g, 11, o) == Step(Reject, o);
    assert WriteName(g, 11, o) == Step(Accept(15), Nest(o));
  }

  lemma TryLiteral(g: Grammar, float: bool, o: Out)
    requires IsShift(g)
    ensures WriteLiteral(g, 11, float, o) == Step(Reject, TriedLiteral(o))
  {
    hide WriteType, Grammar.Type, Nest;
    TypeA(g, o);
    assert g.RunEnd(15, Digits) == 15 && g.RunEnd(15, FloatChars) == 15;
    assert g.Literal(11, float) == Reject;
  }

  lemma TryOperand(g: Grammar, o: Out)
    requires IsShift(g)
    ensures WriteExpression(g, 10, o) == Step(Reject, TriedLiteral(TriedLiteral(o)))
  {
    hide Writes, Keeps;
    hide WriteLiteral, Grammar.Literal, WriteOperation, Grammar.Operation, TriedLiteral;
    var l1 := TriedLiteral(o);
    var l2 := TriedLiteral(l1);
    TryLiteral(g, false, o);
    TryLiteral(g, true, l1);
    Reading.UndoNothing(l2);
    assert WriteExprPrimary(g, 10, o) == Step(Reject, l2);
    NoOperation(g, 10, 3, l2);
    NoOperation(g, 10, 2, l2);
    NoOperation(g, 10, 1, l2);
  }

  /** The states after an operator of the inner and of the outer expression were tried in vain */
  function TriedShift(g: Grammar, o: Out): Out
  {
    var a := EmitOperator(o, Symbol(g, 'r', 'S'));
    Undo(o, Undo(a, TriedLiteral(TriedLiteral(a))))
  }

  function TriedShifts(g: Grammar, o: Out): Out { TriedShift(g, TriedShift(g, TriedShift(g, o))) }

  function TriedSizeof(g: Grammar, o: Out): Out
  {
    var a := EmitOperator(o, Symbol(g, 's', 't'));
    Undo(o, Undo(a, TriedShifts(g, a)))
  }

  lemma TryShift(g: Grammar, count: nat, o: Out)
    requires IsShift(g) && count > 0
    ensures WriteOperation(g, 8, count, o) == Step(Reject, TriedShift(g, o))
  {
    hide Writes, Keeps;
    hide WriteExpression, Grammar.Expression, EmitOperator, TriedLiteral;
    var a := EmitOperator(o, Symbol(g, 'r', 'S'));
    assert WriteOperatorName(g, 8, o) == Step(Accept(10), a);
    TryOperand(g, a);
  }

  lemma TryShifts(g: Grammar, o: Out)
    requires IsShift(g)
    ensures WriteExpression(g, 8, o) == Step(Reject, TriedShifts(g, o))
  {
    hide Writes, Keeps;
    hide WriteOperation, Grammar.Operation, TriedShift;
    TryShift(g, 3, o);
    TryShift(g, 2, TriedShift(g, o));
    TryShift(g, 1, TriedShift(g, TriedShift(g, o)));
  }

  lemma TrySizeof(g: Grammar, count: nat, o: Out)
    requires IsShift(g) && count > 0
    ensures WriteOperation(g, 6, count, o) == Step(Reject, TriedSizeof(g, o))
  {
    hide Writes, Keeps;
    hide WriteExpression, Grammar.Expression, EmitOperator, TriedShifts;
    var a := EmitOperator(o, Symbol(g, 's', 't'));
    assert WriteOperatorName(g, 6, o) == Step(Accept(8), a);
    TryShifts(g, a);
  }

  /** The state behind the substitution, which is first taken for the name of a template */
  function Question(o: Out): Out { Emit(Undo(o, Emit(o, "?")), "?") }

  lemma SubstitutionAt9(g: Grammar, o: Out)
    requires IsShift(g)
    ensures WriteSubstitution(g, 9, o) == Step(Accept(16), Emit(o, "?"))
  {
    assert g.RunEnd(15, SeqIdChars) == 15 && g.RunEnd(14, SeqIdChars) == 15 && g.RunEnd(13, SeqIdChars) == 15;
    assert g.RunEnd(12, SeqIdChars) == 15 && g.RunEnd(11, SeqIdChars) == 15 && g.RunEnd(10, SeqIdChars) == 15;
  }

  lemma NameAt9(g: Grammar, o: Out)
    requires IsShift(g)
    ensures WriteName(g, 9, o) == Step(Reject, Undo(o, Emit(o, "?")))
  {
    hide Writes, Keeps;
    hide WriteUnscopedName, Grammar.UnscopedName, WriteSubstitution, Grammar.Substitution, Emit;
    var q := Emit(o, "?");
    NoUnscoped(g, 9, o);
    SubstitutionAt9(g, o);
    NoTemplateArgs(g, 16, q);
    assert WriteTemplatedName(g, 9, o) == Step(Reject, Undo(o, q));
    NoUnscoped(g, 9, Undo(o, q));
  }

  lemma NoModifier(g: Grammar, o: Out)
    requires IsShift(g)
    ensures WriteModifiedType(g, 9, o) == Step(Reject, o) && WriteBuiltinType(g, 9, o) == Step(Reject, o)
    ensures WriteFunctionType(g, 9, o) == Step(Reject, o)
  {
    hide Emit, Writes, Keeps;
  }

  lemma QuestionType(g: Grammar, o: Out)
    requires IsShift(g)
    ensures WriteType(g, 9, o) == Step(Accept(16), Question(o))
  {
    hide WriteModifiedType, Grammar.ModifiedType, WriteBuiltinType, Grammar.BuiltinType, WriteFunctionType;
    hide WriteName, Grammar.Name, WriteSubstitution, Grammar.Substitution, Emit, Undo, Writes, Keeps;
    NoModifier(g, o);
    NameAt9(g, o);
    SubstitutionAt9(g, Undo(o, Emit(o, "?")));
  }

  lemma RestrictType(g: Grammar, o: Out)
    requires IsShift(g)
    ensures WriteType(g, 8, o) == Step(Accept(16), Question(o))
  {
    hide Question, Writes, Keeps;
    QuestionType(g, o);
    assert WriteQualifiedType(g, 8, o) == WriteType(g, 9, o);
    assert WriteModifiedType(g, 8, o) == WriteType(g, 9, o);
  }

  function Decltype(g: Grammar, o: Out): Out
  {
    Question(TriedSizeof(g, TriedSizeof(g, TriedSizeof(g, o))))
  }

  lemma ShiftExpression(g: Grammar, o: Out)
    requires IsShift(g)
    ensures WriteExpression(g, 6, o) == Step(Accept(16), Decltype(g, o))
  {
    hide Writes, Keeps;
    hide WriteOperation, Grammar.Operation, WriteType, Grammar.Type, TriedSizeof, Question;
    TrySizeof(g, 3, o);
    TrySizeof(g, 2, TriedSizeof(g, o));
    TrySizeof(g, 1, TriedSizeof(g, TriedSizeof(g, o)));
    RestrictType(g, TriedSizeof(g, TriedSizeof(g, TriedSizeof(g, o))));
  }

  lemma ShiftType(g: Grammar, o: Out)
    requires IsShift(g)
    ensures WriteType(g, 4, o) == Step(Accept(17), Decltype(g, o))
  {
    hide Writes, Keeps;
    hide WriteExpression, Grammar.Expression, Decltype;
    ShiftExpression(g, o);
    assert WriteDecltype(g, 6, o) == Step(Accept(17), Decltype(g, o));
    assert WriteExtendedType(g, 4, o) == WriteDecltype(g, 6, o);
    assert WriteModifiedType(g, 4, o) == WriteDecltype(g, 6, o);
  }

  // ---------- what the attempts do to a buffer of eleven characters ----------

  /** A buffer of eleven characters that overflowed and is full, with the first word in place */
  ghost predicate Full(b: Buffer)
  {
    |b.cells| == 11 && b.cur == 10 && b.overflowed && b.cells[..8] == "operator"
  }

  /** The same buffer between the word `operator ` and what follows */
  ghost predicate Open(b: Buffer)
  {
    |b.cells| == 11 && b.cur == 9 && !b.overflowed && b.cells[..8] == "operator"
  }

  /** The space behind the first word is overwritten. */
  ghost predicate Damaged(b: Buffer) { |b.cells| == 11 && b.cells[8] == '\0' }

  lemma FullEmit(o: Out, str: string, cells: seq<char>)
    requires o.append && Full(Play(o.log, cells))
    ensures var b, c := Play(o.log, cells), Play(Emit(o, str).log, cells);
      Full(c) && (Damaged(b) ==> Damaged(c))
    ensures Emit(o, str).append
  {
    if str != "" {
      EmitPlay(o, str, cells);
      hide Play, Buffer.Emit;
      var b := Play(o.log, cells);
      Fit.BufferEmit(b, str);
      FullAppended(b, Fit.BufferPad(b, str[0]) + str, b.Emit(str));
    }
  }

  lemma FullAppended(b: Buffer, all: string, c: Buffer)
    requires Full(b) && Fit.Appended(b, all, c)
    ensures Full(c) && (Damaged(b) ==> Damaged(c))
  {
    assert c.cells[..8] == b.cells[..8];
  }

  lemma FullOperator(o: Out, symbol: string, cells: seq<char>)
    requires o.append && Full(Play(o.log, cells))
    ensures var b, c := Play(o.log, cells), Play(EmitOperator(o, symbol).log, cells);
      Full(c) && (Damaged(b) ==> Damaged(c))
    ensures EmitOperator(o, symbol).append
  {
    hide Play, Emit, Full, Damaged;
    var o1 := Emit(o, "operator");
    FullEmit(o, "operator", cells);
    FullEmit(o1, " ", cells);
    FullEmit(if symbol != "" && IsLower(symbol[0]) then Emit(o1, " ") else o1, symbol, cells);
  }

  /** In a full buffer the separator behind A is not written, but it is cancelled. */
  lemma NestPlay(o: Out, cells: seq<char>)
    requires o.append && Full(Play(o.log, cells))
    ensures var c := Play(Nest(o).log, cells); Damaged(c) && c.cells[..8] == "operator"
  {
    var a := Emit(o.(nest := 0), "A");
    var s := Emit(a.(nest := 1), "::");
    FullEmit(o.(nest := 0), "A", cells);
    FullEmit(a.(nest := 1), "::", cells);
    PlayStep(s.log, Cut, cells);
    hide Play, Emit;
    CancelFull(Play(s.log, cells));
  }

  lemma CancelFull(b: Buffer)
    requires Full(b)
    ensures Damaged(b.Cancel()) && b.Cancel().cells[..8] == "operator"
  {
    assert b.Cancel().cells[..8] == b.cells[..8];
  }

  lemma TriedLiteralPlay(o: Out, cells: seq<char>)
    requires o.append && Full(Play(o.log, cells))
    ensures var c := Play(TriedLiteral(o).log, cells); Full(c) && Damaged(c)
    ensures TriedLiteral(o).append
  {
    hide Play, Nest, Undo;
    NestPlay(o, cells);
    UndoPlay(o, Nest(o), cells);
    UndoneLonger(o, Nest(o));
  }

  lemma TriedShiftPlay(g: Grammar, o: Out, cells: seq<char>)
    requires o.append && Full(Play(o.log, cells))
    ensures var c := Play(TriedShift(g, o).log, cells); Full(c) && Damaged(c)
    ensures TriedShift(g, o).append
  {
    hide Play, TriedLiteral, EmitOperator, Symbol, Undo;
    var a := EmitOperator(o, Symbol(g, 'r', 'S'));
    var l := TriedLiteral(TriedLiteral(a));
    FullOperator(o, Symbol(g, 'r', 'S'), cells);
    TriedLiteralPlay(a, cells);
    TriedLiteralPlay(TriedLiteral(a), cells);
    UndoPlay(a, l, cells);
    UndoPlay(o, Undo(a, l), cells);
    UndoneLonger(o, Undo(a, l));
  }

  lemma TriedShiftsPlay(g: Grammar, o: Out, cells: seq<char>)
    requires o.append && Full(Play(o.log, cells))
    ensures var c := Play(TriedShifts(g, o).log, cells); Full(c) && Damaged(c)
    ensures TriedShifts(g, o).append
  {
    hide Play, TriedShift, Full, Damaged;
    TriedShiftPlay(g, o, cells);
    TriedShiftPlay(g, TriedShift(g, o), cells);
    TriedShiftPlay(g, TriedShift(g, TriedShift(g, o)), cells);
  }

  /** The first operator name fills the buffer. */
  lemma OpenOperator(o: Out, symbol: string, cells: seq<char>)
    requires o.append && Open(Play(o.log, cells))
    ensures Full(Play(EmitOperator(o, symbol).log, cells)) && EmitOperator(o, symbol).append
  {
    var o1 := Emit(o, "operator");
    EmitPlay(o, "operator", cells);
    var b := Play(o.log, cells);
    hide Play, Emit, Buffer.Emit, Buffer.Spaced;
    Fit.BufferEmit(b, "operator");
    OpenAppended(b, Fit.BufferPad(b, "operator"[0]) + "operator", b.Emit("operator"));
    hide Full, Open, Fit.Appended;
    FullEmit(o1, " ", cells);
    FullEmit(if symbol != "" && IsLower(symbol[0]) then Emit(o1, " ") else o1, symbol, cells);
  }

  lemma OpenAppended(b: Buffer, all: string, c: Buffer)
    requires Open(b) && Fit.Appended(b, all, c) && |all| >= 8
    ensures Full(c)
  {
    assert c.cells[..8] == b.cells[..8];
  }

  lemma TriedSizeofPlay(g: Grammar, o: Out, cells: seq<char>)
    requires o.append && Open(Play(o.log, cells))
    ensures var c := Play(TriedSizeof(g, o).log, cells); Open(c) && Damaged(c)
    ensures TriedSizeof(g, o).append && TriedSizeof(g, o).ideal.text == o.ideal.text
  {
    hide Play, TriedShifts, EmitOperator, Symbol, Undo;
    var a := EmitOperator(o, Symbol(g, 's', 't'));
    var l := TriedShifts(g, a);
    OpenOperator(o, Symbol(g, 's', 't'), cells);
    TriedShiftsPlay(g, a, cells);
    UndoPlay(a, l, cells);
    UndoPlay(o, Undo(a, l), cells);
    UndoneLonger(o, Undo(a, l));
  }

  lemma QuestionPlay(o: Out, cells: seq<char>)
    requires o.append && Open(Play(o.log, cells)) && Damaged(Play(o.log, cells))
    ensures var c := Play(Question(o).log, cells); !c.overflowed && c.cells == "operator\0?\0"
    ensures Question(o).ideal.text == o.ideal.text + "?"
  {
    var q := Emit(o, "?");
    var u := Undo(o, q);
    EmitPlay(o, "?", cells);
    UndoPlay(o, q, cells);
    UndoneLonger(o, q);
    EmitPlay(u, "?", cells);
    Fit.EmitText(u.ideal, "?");
    assert "" + "?" == "?";
    hide Play, Emit, Undo, Buffer.Emit, Buffer.Spaced;
    var b := Play(o.log, cells);
    Fit.BufferEmit(b, "?");
    assert Fit.BufferPad(b, "?"[0]) + "?" == "?";
    OpenQuestion(b, b.Emit("?"));
    var d := Play(u.log, cells);
    Fit.BufferEmit(d, "?");
    assert Fit.BufferPad(d, "?"[0]) + "?" == "?";
    OpenQuestion(d, d.Emit("?"));
  }

  lemma OpenQuestion(b: Buffer, c: Buffer)
    requires Open(b) && Damaged(b) && Fit.Appended(b, "?", c)
    ensures c.cells[..8] == "operator" && Damaged(c)
    ensures !c.overflowed && c.cells == "operator\0?\0"
  {
    assert c.cells[..8] == b.cells[..8];
    assert c.cells == c.cells[..8] + ['\0', '?', '\0'];
  }

  lemma ShiftCast(g: Grammar, o: Out)
    requires IsShift(g)
    ensures WriteCast(g, 4, o) == Step(Accept(17), Decltype(g, Emit(o, "operator ").(nest := 0)).(nest := o.nest))
  {
    hide WriteType, Grammar.Type, Decltype, Emit;
    ShiftType(g, Emit(o, "operator ").(nest := 0));
  }

  lemma DecltypePlay(g: Grammar, o: Out, cells: seq<char>)
    requires o.append && Open(Play(o.log, cells))
    ensures var c := Play(Decltype(g, o).log, cells); !c.overflowed && c.cells == "operator\0?\0"
    ensures Decltype(g, o).ideal.text == o.ideal.text + "?"
  {
    hide Play, TriedSizeof, Question, Open, Damaged;
    var o1 := TriedSizeof(g, o);
    TriedSizeofPlay(g, o, cells);
    TriedSizeofPlay(g, o1, cells);
    TriedSizeofPlay(g, TriedSizeof(g, o1), cells);
    QuestionPlay(TriedSizeof(g, TriedSizeof(g, o1)), cells);
  }

  /** The name is `operator ?`, which with its NUL fits exactly; but the buffer reads `operator`. */
  lemma DamagedText(g: Grammar, cells: seq<char>)
    requires IsShift(g) && |cells| == 11
    ensures g.Recognised() && WriteSymbol(g).ideal.text == "operator ?"
    ensures var b := Play(WriteSymbol(g).log, cells); !b.overflowed && b.cells == "operator\0?\0"
  {
    hide Decltype, Play, Emit, WriteCast, WriteSymbol, Grammar.Recognised;
    forall r ensures WriteCast(g, 4, r).at == Accept(17) {
      ShiftCast(g, r);
    }
    assert g.text[..4] == "_Zcv";
    var x := CastSymbol(g);
    ShiftCast(g, x);
    var o := Emit(x, "operator ").(nest := 0);
    OperatorWord(x, cells);
    OpenWord(Play(o.log, cells));
    DecltypePlay(g, o, cells);
    assert "operator " + "?" == "operator ?";
  }

  lemma OpenWord(b: Buffer)
    requires |b.cells| == 11 && b.cur == 9 && !b.overflowed && b.cells[..9] == "operator "
    ensures Open(b)
  {
    assert b.cells[..9][..8] == b.cells[..8] && "operator "[..8] == "operator";
  }

  // ---------- the two symbols in the demangler ----------

  /** The name is `operator ?`, ten characters, and the buffer has eleven.  It succeeds, and the C string in
      the buffer is `operator`. */
  method DamagedExample(mangled: CString, out: array<char>) returns (ok: bool)
    requires mangled == "_ZcvDtstrSLN1AE_E" && out.Length == 11
    modifies out
    ensures ok && out[..] == "operator\0?\0"
  {
    hide Knows, Play, WriteSymbol, Grammar.Recognised, Ends.EncodingSays, Ends.HasVersion;
    var g := Itanium(mangled);
    ItaniumKnows(mangled);
    DamagedText(g, out[..]);
    ok := Demangle(mangled, out);
  }

  /** The name is `operator `, and however large the buffer is, the C string in it goes on behind that. */
  method UnterminatedExample(mangled: CString, out: array<char>) returns (ok: bool)
    requires mangled == "_ZcvDtstu0E" && out.Length >= 12
    modifies out
    ensures ok && out[..9] == "operator " && out[9] == 'o'
  {
    hide Knows, Play, WriteSymbol, Grammar.Recognised, Ends.EncodingSays, Ends.HasVersion;
    var g := Itanium(mangled);
    ItaniumKnows(mangled);
    Unterminated(g, out[..]);
    ok := Demangle(mangled, out);
  }
}
