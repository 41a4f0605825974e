/** What the demangler writes for mangled symbols: it reads each to its end. */
module DemangleSymbols {
  import opened Lists
  import opened MangledText
  import opened DemangleGrammar
  import opened DemangleOutput
  import opened DemangleReading
  import opened DemangleNames
  import opened Mangling

  // ---------- symbols ----------

  /** What is local to a function, as a name. */
  function StaticName(f: Function, id: string): Name { Local(f, Unscoped(false, Identifier(false, id, [], []))) }

  /** A string literal is first taken for something local, which fails behind the separator. */
  function StringOut(o: Out, f: Function): Out
  {
    var x := FunctionOut(o, f);
    FunctionOut(Undo(o, Undo(x, Emit(x, "::"))), f)
  }

  /** What is no function is first taken for one. */
  function SymbolOut(o: Out, symbol: Symbol): Out
  {
    match symbol
    case Callable(f) => FunctionOut(o, f)
    case Variable(name) => NameOut(Undo(o, NameOut(o, name)), name)
    case Static(f, id, _) => NameOut(Undo(o, NameOut(o, StaticName(f, id))), StaticName(f, id))
    case StringLiteral(f, _) => StringOut(Undo(o, StringOut(o, f)), f)
    case TypeData(_, t) => TyOut(o, t)
    case ConstructionVtable(t, _, _) => TyOut(o, t)
    case NameData(_, name) => NameOut(o, name)
    case Alias(f) => FunctionOut(o, f)
    case Thunk(_, f) => FunctionOut(o, f)
    case CovariantThunk(_, _, f) => FunctionOut(o, f)
    case GnuThunk(_, _, f) => FunctionOut(o, f)
  }

  /** Nothing follows but a suffix. */
  ghost predicate AtSuffix(g: Grammar, i: nat) { i == |g.text| || (i < |g.text| && g.text[i] in ".@") }

  lemma AtSuffixIs(g: Grammar, i: nat)
    requires AtSuffix(g, i)
    ensures ListEnds(g, i) && Stops(g.At(i)) && !IsDigit(g.At(i)) && i <= |g.text|
  {}

  lemma NoFunction(g: Grammar, i: nat)
    requires Knows(g) && AtSuffix(g, i)
    ensures g.BareFunctionType(i) == Reject
  {
    hide Knows, AtSuffix, ListEnds, Stops, Grammar.BareFunctionType;
    AtSuffixIs(g, i);
    NoMoreTypes(g, i);
  }

  lemma DataIs(g: Grammar, i: nat, o: Out, end: nat, u: Out, v: Out)
    requires i <= |g.text| && WriteName(g, i, o) == Step(Accept(end), u)
    requires WriteName(g, i, Undo(o, u)) == Step(Accept(end), v) && g.BareFunctionType(end) == Reject
    ensures WriteEncoding(g, i, o) == Step(Accept(end), v)
  {
    hide WriteName, Grammar.Name, Grammar.BareFunctionType, Undo, Writes, Keeps;
    assert WriteFunctionEncoding(g, i, o) == Step(Reject, Undo(o, u));
  }

  lemma SpecialIs(g: Grammar, i: nat, o: Out)
    requires i <= |g.text| && g.At(i) in "TG"
    ensures WriteEncoding(g, i, o) == WriteSpecialName(g, i, o)
  {
    hide WriteName, Grammar.Name, WriteSpecialName, Grammar.SpecialName, Writes, Keeps;
    NoNameHere(g, i, o);
    UndoNothing(o);
    assert WriteFunctionEncoding(g, i, o) == Step(Reject, o);
  }

  lemma VariableRead(g: Grammar, i: nat, name: Name, end: nat, o: Out)
    requires Knows(g) && WfName(name) && AtSuffix(g, end)
    requires Reads(g, i, NameText(name)) && end == i + |NameText(name)|
    ensures WriteEncoding(g, i, o) == Step(Accept(end), NameOut(Undo(o, NameOut(o, name)), name))
  {
    hide Knows, Reads, WfName, NameText, NameOut, WriteName, WriteEncoding, AtSuffix, Stops, ListEnds, Undo,
         Grammar.BareFunctionType;
    var u := NameOut(o, name);
    ReadsSlice(g, i, NameText(name));
    AtSuffixIs(g, end);
    NoFunction(g, end);
    NameRead(g, i, name, o);
    NameRead(g, i, name, Undo(o, u));
    DataIs(g, i, o, end, u, NameOut(Undo(o, u), name));
  }

  lemma NumberedRead(g: Grammar, i: nat, number: Option<nat>, end: nat)
    requires Reads(g, i, NumberText(number)) && end == i + |NumberText(number)| && AtSuffix(g, end)
    ensures g.AfterDiscriminator(i) == end && (if number.Some? then g.At(i) == '_' else AtSuffix(g, i))
  {
    hide Reads, Decimal, AtSuffix, Grammar.Number;
    AtSuffixIs(g, end);
    if number.Some? {
      Split(g, i, "_", i + 1, Decimal(number.value));
      NumberRead(g, i + 1, number.value);
    } else {
      ReadsSlice(g, i, "");
    }
  }

  /** Something static with its discriminator. */
  lemma StaticRead(g: Grammar, i: nat, f: Function, id: string, number: nat, end: nat, o: Out)
    requires Knows(g) && WfFunction(f) && IsIdentifier(id) && AtSuffix(g, end)
    requires Reads(g, i, (("Z" + FunctionText(f)) + "E") + (IdText(id) + NumberText(Some(number))))
    requires end == i + |(("Z" + FunctionText(f)) + "E") + (IdText(id) + NumberText(Some(number)))|
    ensures WriteName(g, i, o) == Step(Accept(end), NameOut(o, StaticName(f, id)))
  {
    hide Knows, Reads, WfFunction, IsIdentifier, FunctionText, FunctionOut, IdText, NumberText, NameOut, WriteName,
         Emit, WriteEncoding, AtSuffix;
    var mid := i + 1 + |FunctionText(f)|;
    var k := mid + 1 + |IdText(id)|;
    var x := Emit(FunctionOut(o, f), "::");
    StaticParts(g, i, FunctionText(f), mid, IdText(id), k, NumberText(Some(number)), end);
    ScopeRead(g, i, f, o);
    NumberedRead(g, k, Some(number), end);
    PlainRead(g, mid + 1, id, k, x);
    StaticOut(o, f, id);
    LocalNameIs(g, i, o, mid, FunctionOut(o, f), k, NameOut(x, Unscoped(false, Identifier(false, id, [], []))));
  }

  lemma StaticParts(g: Grammar, i: nat, f: string, mid: nat, id: string, k: nat, number: string, end: nat)
    requires Reads(g, i, (("Z" + f) + "E") + (id + number)) && end == i + |(("Z" + f) + "E") + (id + number)|
    requires mid == i + 1 + |f| && k == mid + 1 + |id|
    ensures Reads(g, i, ("Z" + f) + "E") && Reads(g, mid + 1, id) && Reads(g, k, number) && end == k + |number|
    ensures end <= |g.text|
  {
    hide Reads;
    Split(g, i, ("Z" + f) + "E", mid + 1, id + number);
    Split(g, mid + 1, id, k, number);
  }

  lemma StaticOut(o: Out, f: Function, id: string)
    ensures NameOut(o, StaticName(f, id)) ==
      NameOut(Emit(FunctionOut(o, f), "::"), Unscoped(false, Identifier(false, id, [], [])))
  {
    hide Emit, FunctionOut;
    LocalOut(o, StaticName(f, id));
  }

  /** An identifier alone. */
  lemma PlainRead(g: Grammar, i: nat, id: string, end: nat, o: Out)
    requires IsIdentifier(id) && Reads(g, i, IdText(id)) && end == i + |IdText(id)| && g.At(end) == '_'
    ensures WriteName(g, i, o) == Step(Accept(end), NameOut(o, Unscoped(false, Identifier(false, id, [], []))))
  {
    hide Reads, IdText, IsIdentifier, UnscopedOut, Undo, WriteName, WriteUnscopedName;
    var item := Identifier(false, id, [], []);
    ReadsSlice(g, i, IdText(id));
    assert HeadText(false, id, []) == "" + IdText(id) + "" == IdText(id);
    assert "" + HeadText(false, id, []) == IdText(id);
    var u := UnscopedOut(o, false, id);
    UnscopedHeadRead(g, i, false, item, o);
    UnscopedHeadRead(g, i, false, item, Undo(o, u));
    UnscopedNameIs(g, i, o, end, u, UnscopedOut(Undo(o, u), false, id));
  }

  lemma NoEntity(g: Grammar, i: nat, o: Out)
    requires i <= |g.text| && g.At(i) == 's' && (g.At(i + 1) == '_' || AtSuffix(g, i + 1))
    ensures WriteName(g, i, o) == Step(Reject, o)
  {
    hide Writes, Keeps, WriteSourceName, Grammar.SourceName;
    NoSourceName(g, i, o);
    UndoNothing(o);
    assert !IsAlpha(g.At(i + 1)) && !IsDigit(g.At(i + 1));
    assert WriteOperatorName(g, i, o) == Step(Reject, o);
    assert WriteUnqualifiedName(g, i, o) == Step(Reject, o);
    hide WriteUnqualifiedName, Grammar.UnqualifiedName;
    assert WriteUnscopedName(g, i, o) == Step(Reject, o);
    hide WriteUnscopedName, Grammar.UnscopedName;
    assert WriteTemplatedName(g, i, o) == Step(Reject, o);
  }

  lemma WritesName(g: Grammar, i: nat, o: Out)
    requires i <= |g.text|
    ensures g.Name(i) == WriteName(g, i, o).at
  {
    hide WriteName, Grammar.Name;
  }

  lemma LocalStringIs(g: Grammar, i: nat, o: Out, mid: nat, x: Out, y: Out)
    requires i < |g.text| && g.text[i] == 'Z' && g.At(mid) == 'E' && g.At(mid + 1) == 's' && mid + 2 <= |g.text|
    requires WriteEncoding(g, i + 1, o) == Step(Accept(mid), x)
    requires WriteName(g, mid + 1, Emit(x, "::")) == Step(Reject, Emit(x, "::"))
    requires WriteEncoding(g, i + 1, Undo(o, Undo(x, Emit(x, "::")))) == Step(Accept(mid), y)
    ensures WriteName(g, i, o) == Step(Accept(g.AfterDiscriminator(mid + 2)), y)
  {
    hide WriteEncoding, Grammar.Encoding, WriteName, Grammar.Name, Emit, Undo, Writes, Keeps,
         Grammar.AfterDiscriminator;
    var z := Undo(x, Emit(x, "::"));
    WritesName(g, mid + 1, Emit(x, "::"));
    assert WriteEntityName(g, mid + 1, x) == Step(Reject, z);
    assert WriteLocalEntity(g, i + 1, o) == Step(Reject, Undo(o, z));
    assert WriteLocalString(g, i + 1, Undo(o, z)) == Step(Accept(g.AfterDiscriminator(mid + 2)), y);
    hide WriteLocalEntity, Grammar.LocalEntity, WriteLocalString, Grammar.LocalString;
    assert WriteLocalName(g, i, o) == Step(Accept(g.AfterDiscriminator(mid + 2)), y);
    LocalIsName(g, i, o);
  }

  lemma StringRead(g: Grammar, i: nat, f: Function, copy: Option<nat>, end: nat, o: Out)
    requires Knows(g) && WfFunction(f) && AtSuffix(g, end)
    requires Reads(g, i, (("Z" + FunctionText(f)) + "E") + ("s" + NumberText(copy)))
    requires end == i + |(("Z" + FunctionText(f)) + "E") + ("s" + NumberText(copy))|
    ensures WriteName(g, i, o) == Step(Accept(end), StringOut(o, f))
  {
    hide Knows, Reads, WfFunction, FunctionText, FunctionOut, NumberText, WriteName, Emit, Undo, WriteEncoding,
         AtSuffix;
    var mid := i + 1 + |FunctionText(f)|;
    var x := FunctionOut(o, f);
    var o' := Undo(o, Undo(x, Emit(x, "::")));
    Split(g, i, ("Z" + FunctionText(f)) + "E", mid + 1, "s" + NumberText(copy));
    Split(g, mid + 1, "s", mid + 2, NumberText(copy));
    ScopeRead(g, i, f, o);
    ScopeRead(g, i, f, o');
    NumberedRead(g, mid + 2, copy, end);
    NoEntity(g, mid + 1, Emit(x, "::"));
    LocalStringIs(g, i, o, mid, x, FunctionOut(o', f));
  }

  // ---------- special names ----------

  lemma TypeDataIs(g: Grammar, i: nat, o: Out, r: Step)
    requires i + 2 <= |g.text| && g.text[i] == 'T' && g.text[i + 1] in "VTISFJ" && r.at.Accept?
    requires WriteType(g, i + 2, o) == r
    ensures WriteEncoding(g, i, o) == r
  {
    hide WriteType, Grammar.Type, WriteEncoding, Grammar.Encoding, Grammar.SpecialName, Writes, Keeps;
    SpecialIs(g, i, o);
    if g.text[i + 1] in "FJ" {
      assert WriteGnuSpecialName(g, i, o) == r;
      hide WriteGnuSpecialName, Grammar.GnuSpecialName;
      assert WriteOffsetEncoding(g, i + 1, o) == Step(Reject, o);
    }
  }

  lemma ConstructionVtableIs(g: Grammar, i: nat, o: Out, mid: nat, x: Out, n: nat, end: nat)
    requires i + 2 <= |g.text| && g.text[i] == 'T' && g.text[i + 1] == 'C' && mid <= |g.text| && n < |g.text|
    requires WriteType(g, i + 2, o) == Step(Accept(mid), x) && g.Number(mid) == Accept(n) && g.At(n) == '_'
    requires g.Type(n + 1) == Accept(end)
    ensures WriteEncoding(g, i, o) == Step(Accept(end), x)
  {
    hide WriteType, Grammar.Type, Grammar.Number, WriteEncoding, Grammar.Encoding, Grammar.SpecialName, Writes,
         Keeps;
    SpecialIs(g, i, o);
    WritesType(g, i + 2, o);
    assert g.ConstructionVtable(i + 2) == Accept(end);
    assert WriteConstructionVtable(g, i + 2, o) == Step(Accept(end), x);
    hide WriteConstructionVtable, Grammar.ConstructionVtable;
    assert WriteGnuSpecialName(g, i, o) == Step(Accept(end), x);
    hide WriteGnuSpecialName, Grammar.GnuSpecialName;
    assert WriteOffsetEncoding(g, i + 1, o) == Step(Reject, o);
  }

  lemma NameDataIs(g: Grammar, i: nat, o: Out, r: Step)
    requires i + 2 <= |g.text| && g.text[i] == 'G' && g.text[i + 1] in "VR" && r.at.Accept?
    requires WriteName(g, i + 2, o) == r
    ensures WriteEncoding(g, i, o) == r
  {
    hide WriteName, Grammar.Name, WriteEncoding, Grammar.Encoding, Grammar.SpecialName, Writes, Keeps;
    SpecialIs(g, i, o);
    if g.text[i + 1] == 'R' {
      assert WriteGnuSpecialName(g, i, o) == r;
      hide WriteGnuSpecialName, Grammar.GnuSpecialName;
    }
  }

  lemma AliasIs(g: Grammar, i: nat, o: Out, r: Step)
    requires i + 2 <= |g.text| && g.text[i] == 'G' && g.text[i + 1] == 'A' && r.at.Accept?
    requires WriteEncoding(g, i + 2, o) == r
    ensures WriteEncoding(g, i, o) == r
  {
    hide WriteEncoding, Grammar.Encoding, Grammar.SpecialName, Writes, Keeps;
    SpecialIs(g, i, o);
    assert WriteGnuSpecialName(g, i, o) == r;
    hide WriteGnuSpecialName, Grammar.GnuSpecialName;
  }

  lemma FixedRead(g: Grammar, i: nat, n: int, a: nat)
    requires Reads(g, i, "h" + (IntText(n) + "_")) && a == i + 1 + |IntText(n)|
    ensures a < |g.text| && g.CallOffset(i) == Accept(a + 1) && g.At(i) == 'h'
  {
    hide Reads, IntText, Grammar.Number;
    Split(g, i, "h", i + 1, IntText(n) + "_");
    Split(g, i + 1, IntText(n), a, "_");
    SignedRead(g, i + 1, n);
  }

  lemma VirtualRead(g: Grammar, i: nat, n: int, m: int, a: nat, b: nat)
    requires Reads(g, i, "v" + ((IntText(n) + "_") + (IntText(m) + "_")))
    requires a == i + 1 + |IntText(n)| && b == a + 1 + |IntText(m)|
    ensures b < |g.text| && g.CallOffset(i) == Accept(b + 1) && g.At(i) == 'v'
  {
    hide Reads, IntText, Grammar.Number;
    Split(g, i, "v", i + 1, (IntText(n) + "_") + (IntText(m) + "_"));
    Split(g, i + 1, IntText(n) + "_", a + 1, IntText(m) + "_");
    Split(g, i + 1, IntText(n), a, "_");
    Split(g, a + 1, IntText(m), b, "_");
    SignedRead(g, i + 1, n);
    SignedRead(g, a + 1, m);
    assert g.VOffset(i + 1) == Accept(b);
  }

  lemma OffsetRead(g: Grammar, i: nat, offset: Offset, end: nat)
    requires Reads(g, i, OffsetText(offset)) && end == i + |OffsetText(offset)|
    ensures i < end <= |g.text| && g.CallOffset(i) == Accept(end) && g.At(i) in "hv"
  {
    hide Reads, IntText, Grammar.CallOffset;
    match offset {
      case Fixed(n) => FixedRead(g, i, n, i + 1 + |IntText(n)|);
      case Virtual(n, m) => VirtualRead(g, i, n, m, i + 1 + |IntText(n)|, end - 1);
    }
  }

  lemma ThunkIs(g: Grammar, i: nat, o: Out, mid: nat, r: Step)
    requires i + 1 <= |g.text| && g.text[i] == 'T' && g.At(i + 1) in "hv" && g.CallOffset(i + 1) == Accept(mid)
    requires mid <= |g.text| && WriteEncoding(g, mid, o) == r && r.at.Accept?
    ensures WriteEncoding(g, i, o) == r
  {
    hide WriteEncoding, Grammar.Encoding, Grammar.SpecialName, Grammar.CallOffset, Writes, Keeps;
    SpecialIs(g, i, o);
    assert WriteOffsetEncoding(g, i + 1, o) == r;
    hide WriteOffsetEncoding, Grammar.OffsetEncoding;
  }

  /** No offset of its own has two letters in front, so that this one is left to the last alternative. */
  lemma GnuThunkIs(g: Grammar, i: nat, o: Out, mid: nat, r: Step)
    requires i + 2 <= |g.text| && g.text[i] == 'T' && g.text[i + 1] in "hv" && g.At(i + 2) in "hv"
    requires g.CallOffset(i + 2) == Accept(mid) && mid <= |g.text| && WriteEncoding(g, mid, o) == r && r.at.Accept?
    ensures WriteEncoding(g, i, o) == r
  {
    hide WriteEncoding, Grammar.Encoding, Grammar.SpecialName, Writes, Keeps;
    SpecialIs(g, i, o);
    assert g.CallOffset(i + 1) == Reject;
    hide Grammar.CallOffset;
    assert WriteOffsetEncoding(g, i + 1, o) == Step(Reject, o);
    assert WriteOffsetEncoding(g, i + 2, o) == r;
    hide WriteOffsetEncoding, Grammar.OffsetEncoding;
    assert WriteGnuSpecialName(g, i, o) == r;
    hide WriteGnuSpecialName, Grammar.GnuSpecialName;
  }

  lemma CovariantIs(g: Grammar, i: nat, o: Out, mid: nat, k: nat, r: Step)
    requires i + 2 <= |g.text| && g.text[i] == 'T' && g.text[i + 1] == 'c' && g.CallOffset(i + 2) == Accept(mid)
    requires mid <= |g.text| && g.CallOffset(mid) == Accept(k)
    requires k <= |g.text| && WriteEncoding(g, k, o) == r && r.at.Accept?
    ensures WriteEncoding(g, i, o) == r
  {
    hide WriteEncoding, Grammar.Encoding, Grammar.SpecialName, Grammar.CallOffset, Writes, Keeps;
    SpecialIs(g, i, o);
    assert WriteOffsetEncoding(g, mid, o) == r;
    hide WriteOffsetEncoding, Grammar.OffsetEncoding;
    assert WriteOffsets2Encoding(g, i + 2, o) == r;
    hide WriteOffsets2Encoding, Grammar.Offsets2Encoding;
  }

  /** Two letters in front of something. */
  lemma TwoLetters(g: Grammar, i: nat, s: string, t: string)
    requires Reads(g, i, s + t) && |s| == 2
    ensures i + 2 <= |g.text| && g.text[i] == s[0] && g.text[i + 1] == s[1] && Reads(g, i + 2, t)
  {
    hide Reads;
    Split(g, i, s, i + 2, t);
    ReadsSlice(g, i, s);
    assert g.text[i..i + 2][0] == s[0] && g.text[i..i + 2][1] == s[1];
  }

  lemma SpecialTypeRead(g: Grammar, i: nat, code: char, t: Ty, end: nat, o: Out)
    requires Knows(g) && code in "VTISFJ" && WfTy(t) && AtSuffix(g, end)
    requires Reads(g, i, ("T" + [code]) + TyText(t)) && end == i + 2 + |TyText(t)|
    ensures WriteEncoding(g, i, o) == Step(Accept(end), TyOut(o, t))
  {
    hide Knows, Reads, WfTy, TyText, TyOut, WriteType, WriteEncoding, AtSuffix, Stops, ListEnds;
    TwoLetters(g, i, "T" + [code], TyText(t));
    AtSuffixIs(g, end);
    TyRead(g, i + 2, t, o);
    TypeDataIs(g, i, o, Step(Accept(end), TyOut(o, t)));
  }

  lemma ConstructionVtableRead(g: Grammar, i: nat, t: Ty, n: int, base: Ty, end: nat, o: Out)
    requires Knows(g) && WfTy(t) && WfTy(base) && AtSuffix(g, end)
    requires Reads(g, i, ("TC" + TyText(t)) + ((IntText(n) + "_") + TyText(base)))
    requires end == i + |("TC" + TyText(t)) + ((IntText(n) + "_") + TyText(base))|
    ensures WriteEncoding(g, i, o) == Step(Accept(end), TyOut(o, t))
  {
    hide Knows, Reads, WfTy, TyText, TyOut, WriteType, Grammar.Type, WriteEncoding, AtSuffix, IntText, ListEnds,
         Grammar.Number;
    var mid := i + 2 + |TyText(t)|;
    var k := mid + |IntText(n)|;
    Split(g, i, "TC" + TyText(t), mid, (IntText(n) + "_") + TyText(base));
    TwoLetters(g, i, "TC", TyText(t));
    Split3(g, mid, IntText(n), k, "_", k + 1, TyText(base));
    SignedRead(g, mid, n);
    AtSuffixIs(g, end);
    TyRead(g, i + 2, t, o);
    TyRead(g, k + 1, base, o);
    WritesType(g, k + 1, o);
    ConstructionVtableIs(g, i, o, mid, TyOut(o, t), k, end);
  }

  lemma SpecialNameRead(g: Grammar, i: nat, code: char, name: Name, end: nat, o: Out)
    requires Knows(g) && code in "VR" && WfName(name) && AtSuffix(g, end)
    requires Reads(g, i, ("G" + [code]) + NameText(name)) && end == i + 2 + |NameText(name)|
    ensures WriteEncoding(g, i, o) == Step(Accept(end), NameOut(o, name))
  {
    hide Knows, Reads, WfName, NameText, NameOut, WriteName, WriteEncoding, AtSuffix, Stops, ListEnds;
    TwoLetters(g, i, "G" + [code], NameText(name));
    AtSuffixIs(g, end);
    NameRead(g, i + 2, name, o);
    NameDataIs(g, i, o, Step(Accept(end), NameOut(o, name)));
  }

  lemma CallableRead(g: Grammar, i: nat, f: Function, end: nat, o: Out)
    requires Knows(g) && WfFunction(f) && AtSuffix(g, end)
    requires Reads(g, i, FunctionText(f)) && end == i + |FunctionText(f)|
    ensures WriteEncoding(g, i, o) == Step(Accept(end), FunctionOut(o, f))
  {
    hide Knows, Reads, WfFunction, FunctionText, FunctionOut, WriteEncoding, AtSuffix, ListEnds;
    AtSuffixIs(g, end);
    FunctionRead(g, i, f, o);
  }

  lemma AliasRead(g: Grammar, i: nat, f: Function, end: nat, o: Out)
    requires Knows(g) && WfFunction(f) && AtSuffix(g, end)
    requires Reads(g, i, "GA" + FunctionText(f)) && end == i + 2 + |FunctionText(f)|
    ensures WriteEncoding(g, i, o) == Step(Accept(end), FunctionOut(o, f))
  {
    hide Knows, Reads, WfFunction, FunctionText, FunctionOut, WriteEncoding, AtSuffix;
    TwoLetters(g, i, "GA", FunctionText(f));
    CallableRead(g, i + 2, f, end, o);
    AliasIs(g, i, o, Step(Accept(end), FunctionOut(o, f)));
  }

  lemma ThunkRead(g: Grammar, i: nat, offset: Offset, f: Function, end: nat, o: Out)
    requires Knows(g) && WfFunction(f) && AtSuffix(g, end)
    requires Reads(g, i, ("T" + OffsetText(offset)) + FunctionText(f))
    requires end == i + |("T" + OffsetText(offset)) + FunctionText(f)|
    ensures WriteEncoding(g, i, o) == Step(Accept(end), FunctionOut(o, f))
  {
    hide Knows, Reads, WfFunction, FunctionText, FunctionOut, WriteEncoding, AtSuffix, OffsetText;
    var mid := i + 1 + |OffsetText(offset)|;
    Split3(g, i, "T", i + 1, OffsetText(offset), mid, FunctionText(f));
    Begins(g, i, "T");
    OffsetRead(g, i + 1, offset, mid);
    CallableRead(g, mid, f, end, o);
    ThunkIs(g, i, o, mid, Step(Accept(end), FunctionOut(o, f)));
  }

  lemma GnuThunkRead(g: Grammar, i: nat, code: char, offset: Offset, f: Function, end: nat, o: Out)
    requires Knows(g) && code in "hv" && WfFunction(f) && AtSuffix(g, end)
    requires Reads(g, i, ("T" + [code]) + (OffsetText(offset) + FunctionText(f)))
    requires end == i + 2 + |OffsetText(offset) + FunctionText(f)|
    ensures WriteEncoding(g, i, o) == Step(Accept(end), FunctionOut(o, f))
  {
    hide Knows, Reads, WfFunction, FunctionText, FunctionOut, WriteEncoding, AtSuffix, OffsetText;
    var mid := i + 2 + |OffsetText(offset)|;
    TwoLetters(g, i, "T" + [code], OffsetText(offset) + FunctionText(f));
    Split(g, i + 2, OffsetText(offset), mid, FunctionText(f));
    OffsetRead(g, i + 2, offset, mid);
    CallableRead(g, mid, f, end, o);
    GnuThunkIs(g, i, o, mid, Step(Accept(end), FunctionOut(o, f)));
  }

  lemma CovariantRead(g: Grammar, i: nat, a: Offset, b: Offset, f: Function, end: nat, o: Out)
    requires Knows(g) && WfFunction(f) && AtSuffix(g, end)
    requires Reads(g, i, ("Tc" + OffsetText(a)) + (OffsetText(b) + FunctionText(f)))
    requires end == i + |("Tc" + OffsetText(a)) + (OffsetText(b) + FunctionText(f))|
    ensures WriteEncoding(g, i, o) == Step(Accept(end), FunctionOut(o, f))
  {
    hide Knows, Reads, WfFunction, FunctionText, FunctionOut, WriteEncoding, AtSuffix, OffsetText;
    var mid := i + 2 + |OffsetText(a)|;
    var k := mid + |OffsetText(b)|;
    Split(g, i, "Tc" + OffsetText(a), mid, OffsetText(b) + FunctionText(f));
    TwoLetters(g, i, "Tc", OffsetText(a));
    Split(g, mid, OffsetText(b), k, FunctionText(f));
    OffsetRead(g, i + 2, a, mid);
    OffsetRead(g, mid, b, k);
    CallableRead(g, k, f, end, o);
    CovariantIs(g, i, o, mid, k, Step(Accept(end), FunctionOut(o, f)));
  }

  lemma StaticVariableRead(g: Grammar, i: nat, symbol: Symbol, end: nat, o: Out)
    requires symbol.Static? && Knows(g) && WfSymbol(symbol) && AtSuffix(g, end)
    requires Reads(g, i, EncodingText(symbol)) && end == i + |EncodingText(symbol)|
    ensures WriteEncoding(g, i, o) == Step(Accept(end), SymbolOut(o, symbol))
  {
    hide Knows, Reads, WfFunction, IsIdentifier, FunctionText, IdText, NumberText, NameOut, StaticName, WriteName,
         WriteEncoding, AtSuffix, Undo, Grammar.BareFunctionType;
    var u := NameOut(o, StaticName(symbol.f, symbol.id));
    ReadsSlice(g, i, EncodingText(symbol));
    NoFunction(g, end);
    StaticRead(g, i, symbol.f, symbol.id, symbol.number, end, o);
    StaticRead(g, i, symbol.f, symbol.id, symbol.number, end, Undo(o, u));
    DataIs(g, i, o, end, u, NameOut(Undo(o, u), StaticName(symbol.f, symbol.id)));
  }

  lemma StringLiteralRead(g: Grammar, i: nat, symbol: Symbol, end: nat, o: Out)
    requires symbol.StringLiteral? && Knows(g) && WfSymbol(symbol) && AtSuffix(g, end)
    requires Reads(g, i, EncodingText(symbol)) && end == i + |EncodingText(symbol)|
    ensures WriteEncoding(g, i, o) == Step(Accept(end), SymbolOut(o, symbol))
  {
    hide Knows, Reads, WfFunction, FunctionText, NumberText, StringOut, WriteName, WriteEncoding, AtSuffix, Undo,
         Grammar.BareFunctionType;
    var u := StringOut(o, symbol.f);
    ReadsSlice(g, i, EncodingText(symbol));
    NoFunction(g, end);
    StringRead(g, i, symbol.f, symbol.copy, end, o);
    StringRead(g, i, symbol.f, symbol.copy, end, Undo(o, u));
    DataIs(g, i, o, end, u, StringOut(Undo(o, u), symbol.f));
  }

  /** A mangled symbol is read to its end. */
  lemma EncodingRead(g: Grammar, i: nat, symbol: Symbol, end: nat, o: Out)
    requires Knows(g) && WfSymbol(symbol) && AtSuffix(g, end)
    requires Reads(g, i, EncodingText(symbol)) && end == i + |EncodingText(symbol)|
    ensures WriteEncoding(g, i, o) == Step(Accept(end), SymbolOut(o, symbol))
  {
    hide Knows, Reads, WfFunction, WfName, WfTy, IsIdentifier, FunctionText, NameText, TyText, IdText, IntText,
         NumberText, OffsetText, FunctionOut, NameOut, TyOut, StringOut, WriteEncoding, AtSuffix, Undo;
    match symbol {
      case Callable(f) => CallableRead(g, i, f, end, o);
      case Variable(name) => VariableRead(g, i, name, end, o);
      case Static(_, _, _) => StaticVariableRead(g, i, symbol, end, o);
      case StringLiteral(_, _) => StringLiteralRead(g, i, symbol, end, o);
      case TypeData(code, t) => SpecialTypeRead(g, i, code, t, end, o);
      case ConstructionVtable(t, n, base) => ConstructionVtableRead(g, i, t, n, base, end, o);
      case NameData(code, name) => SpecialNameRead(g, i, code, name, end, o);
      case Alias(f) => AliasRead(g, i, f, end, o);
      case Thunk(offset, f) => ThunkRead(g, i, offset, f, end, o);
      case CovariantThunk(a, b, f) => CovariantRead(g, i, a, b, f, end, o);
      case GnuThunk(code, offset, f) => GnuThunkRead(g, i, code, offset, f, end, o);
    }
  }
}
