/** What the demangler writes for mangled types and names, whatever they are made of: it reads each to its
    end, and no further. */
module DemangleNames {
  import opened Lists
  import opened MangledText
  import opened DemangleGrammar
  import opened DemangleOutput
  import opened DemangleReading
  import opened DemangleTables
  import opened Mangling

  // ---------- what is written ----------

  /** The symbol of an operator. */
  function SymbolOf(c0: char, c1: char): string
  {
    var found := FindPair(OPERATORS, c0, c1);
    if found.Some? then found.value else ""
  }

  /** The state after a part of a prefix, without its template arguments. */
  function AfterHead(o: Out, item: Item): Out
  {
    match item
    case Identifier(_, id, _, _) => Deepen(Emit(Separate(o), Shown(id)))
    case Stand(place, _) => Deepen(PlaceOut(Separate(o), place))
  }

  function AfterItem(o: Out, item: Item): Out
  {
    var head := AfterHead(o, item);
    if item.args == [] then head else Emit(Cancel(Separate(head)), "<>")
  }

  function AfterItems(o: Out, items: seq<Item>): Out
    decreases |items|
  {
    if items == [] then o else AfterItems(AfterItem(o, items[0]), items[1..])
  }

  /** The state after a constructor, destructor, operator or conversion name. */
  function AfterKind(o: Out, kind: Kind): Out
    decreases kind
  {
    match kind
    case Ordinary => o
    case Constructor(_) => Deepen(EmitName(Emit(Separate(o), "")))
    case Destructor(_) => Deepen(EmitName(Emit(Separate(o), "~")))
    case Operator(c0, c1) => Deepen(EmitOperator(Separate(o), SymbolOf(c0, c1)))
    case VendorOperator(_, id) => Deepen(Emit(Separate(o), Shown(id)))
    case Cast(t) => Deepen(TyOut(Emit(Separate(o), "operator ").(nest := 0), t).(nest := o.nest))
  }

  function UnscopedOut(o: Out, std: bool, id: string): Out
  {
    Emit(if std then Emit(o, "std::") else o, Shown(id))
  }

  function TyOut(o: Out, t: Ty): Out
    decreases t
  {
    match t
    case Builtin(code) => Emit(o, BuiltinReadable(code))
    case Vendor(id) => Emit(o, Shown(id))
    case Modified(_, of) => TyOut(o, of)
    case VendorModified(id, of) => TyOut(Emit(o, Shown(id)), of)
    case Expansion(of) => TyOut(o, of)
    case ArrayOf(_, of) => TyOut(o, of)
    case MemberOf(owner, of) => TyOut(TyOut(o, owner), of)
    case FunctionOf(_, _) => Emit(o, "()")
    case Placed(place, args) => PlacedOut(o, place, args != [])
    case Class(name) => NameOut(o, name)
  }

  /** A name without template arguments is read twice, because it was first taken for that of a template. */
  function NameOut(o: Out, name: Name): Out
    decreases name
  {
    match name
    case Nested(_, items, kind) =>
      Cancel(Separate(AfterKind(AfterItems(o.(nest := 0), items), kind))).(nest := o.nest)
    case Unscoped(std, item) =>
      var u := UnscopedOut(o, std, OwnName(item));
      if item.args == [] then UnscopedOut(Undo(o, u), std, OwnName(item)) else Emit(u, "<>")
    case FreeOperator(c0, c1) => EmitOperator(Undo(o, EmitOperator(o, SymbolOf(c0, c1))), SymbolOf(c0, c1))
    case Local(f, entity) => NameOut(Emit(FunctionOut(o, f), "::"), entity)
  }

  function FunctionOut(o: Out, f: Function): Out
    decreases f
  {
    Emit(NameOut(o, f.name), "()")
  }

  // ---------- unqualified names ----------

  lemma IdRead(g: Grammar, i: nat, id: string, tags: seq<string>, o: Out)
    requires Reads(g, i, IdText(id) + TagsText(tags)) && g.At(i + |IdText(id) + TagsText(tags)|) != 'B'
    requires IsIdentifier(id) && forall tag :: tag in tags ==> IsIdentifier(tag)
    ensures WriteUnqualifiedName(g, i, o) == Step(Accept(i + |IdText(id) + TagsText(tags)|), Emit(o, Shown(id)))
    ensures IsDigit(g.At(i))
  {
    hide Emit, Shown, Reads, IdText, IsIdentifier, Writes, Keeps, WriteSourceName, Grammar.SourceName,
         Grammar.AbiTags, Grammar.MoreAbiTags;
    ReadsBoth(g, i, IdText(id), TagsText(tags));
    SourceNameRead(g, i, id, o);
    TagsRead(g, i + |IdText(id)|, tags);
    assert WriteOperatorName(g, i, o) == Step(Reject, o);
  }

  lemma InternalRead(g: Grammar, i: nat, id: string, tags: seq<string>, o: Out)
    requires Reads(g, i, ("L" + IdText(id)) + TagsText(tags))
    requires g.At(i + |("L" + IdText(id)) + TagsText(tags)|) !in "B_"
    requires IsIdentifier(id) && forall tag :: tag in tags ==> IsIdentifier(tag)
    ensures WriteUnqualifiedName(g, i, o) ==
      Step(Accept(i + |("L" + IdText(id)) + TagsText(tags)|), Emit(o, Shown(id)))
    ensures g.At(i) == 'L'
  {
    hide Emit, Shown, Reads, IdText, IsIdentifier, Writes, Keeps, WriteSourceName, Grammar.SourceName,
         Grammar.AbiTags, Grammar.MoreAbiTags;
    var mid := i + 1 + |IdText(id)|;
    ReadsBoth(g, i, "L" + IdText(id), TagsText(tags));
    ReadsBoth(g, i, "L", IdText(id));
    SourceNameRead(g, i + 1, id, o);
    TagsRead(g, mid, tags);
    NoDiscriminator(g, mid, tags);
    NoSourceName(g, i, o);
    assert WriteOperatorName(g, i, o) == Step(Reject, o);
  }

  lemma NoDiscriminator(g: Grammar, i: nat, tags: seq<string>)
    requires Reads(g, i, TagsText(tags)) && g.At(i + |TagsText(tags)|) !in "B_"
    ensures g.AfterDiscriminator(i) == i
  {
    hide IdText;
    if tags != [] { Begins(g, i, TagsText(tags)); }
  }

  lemma NoSourceName(g: Grammar, i: nat, o: Out)
    requires i <= |g.text| && !IsDigit(g.At(i)) && g.At(i) != 'n'
    ensures g.SourceName(i) == Reject && WriteSourceName(g, i, o) == Step(Reject, o)
  {}

  lemma HeadRead(g: Grammar, i: nat, internal: bool, id: string, tags: seq<string>, o: Out)
    requires Reads(g, i, HeadText(internal, id, tags))
    requires g.At(i + |HeadText(internal, id, tags)|) !in if internal then "B_" else "B"
    requires IsIdentifier(id) && forall tag :: tag in tags ==> IsIdentifier(tag)
    ensures WriteUnqualifiedName(g, i, o) == Step(Accept(i + |HeadText(internal, id, tags)|), Emit(o, Shown(id)))
    ensures if internal then g.At(i) == 'L' else IsDigit(g.At(i))
  {
    hide Emit, Shown, Reads, IdText, TagsText, IsIdentifier, WriteUnqualifiedName;
    if internal {
      InternalRead(g, i, id, tags, o);
    } else {
      assert "" + IdText(id) == IdText(id);
      IdRead(g, i, id, tags, o);
    }
  }

  lemma FoundInTable(table: AbbrevTable, c0: char, c1: char)
    requires Abbreviates(table, c0, c1)
    ensures FindPair(table, c0, c1).Some?
  {
    hide FindPair;
    var p :| p in table && p.abbrev == [c0, c1];
    assert p.At(0) == c0 && p.At(1) == c1;
  }

  lemma OperatorFound(c0: char, c1: char)
    requires IsOperator(c0, c1)
    ensures FindPair(OPERATORS, c0, c1) == Some(SymbolOf(c0, c1))
    ensures IsLower(c0) && IsAlpha(c1) && !(c0 == 'c' && c1 == 'v')
  {
    hide FindPair, Abbreviates;
    FoundInTable(OPERATORS, c0, c1);
  }

  lemma OperatorRead(g: Grammar, i: nat, c0: char, c1: char, o: Out)
    requires Reads(g, i, [c0, c1]) && IsOperator(c0, c1) && Knows(g)
    ensures WriteOperatorName(g, i, o) == Step(Accept(i + 2), EmitOperator(o, SymbolOf(c0, c1)))
    ensures WriteUnqualifiedName(g, i, o) == WriteOperatorName(g, i, o)
    ensures g.At(i) == c0 && IsLower(c0) && g.At(i + 1) == c1 && IsAlpha(c1) && !g.At2(i, 'c', 'v')
  {
    hide IsOperator, IsBuiltin, FindChar, FindPair, SymbolOf, EmitOperator, WriteUnqualifiedName,
         WriteOperatorSymbol;
    OperatorFound(c0, c1);
    assert g.text[i] == g.text[i..i + 2][0] == c0 && g.text[i + 1] == g.text[i..i + 2][1] == c1;
    OperatorSymbolRead(g, i, c0, c1, o);
    OperatorIs(g, i, o);
  }

  lemma OperatorIs(g: Grammar, i: nat, o: Out)
    requires i + 1 < |g.text| && IsLower(g.At(i)) && IsAlpha(g.At(i + 1)) && !g.At2(i, 'c', 'v')
    requires WriteOperatorSymbol(g, i, o).at.Accept?
    ensures WriteOperatorName(g, i, o) == WriteOperatorSymbol(g, i, o)
    ensures WriteUnqualifiedName(g, i, o) == WriteOperatorSymbol(g, i, o)
  {
    hide WriteOperatorSymbol, Grammar.OperatorSymbol, Writes, Keeps;
    assert WriteOperatorName(g, i, o) == WriteOperatorSymbol(g, i, o);
  }

  lemma OperatorSymbolRead(g: Grammar, i: nat, c0: char, c1: char, o: Out)
    requires i + 1 < |g.text| && g.text[i] == c0 && g.text[i + 1] == c1 && IsLower(c0) && IsAlpha(c1)
    requires g.operators == OPERATORS && FindPair(OPERATORS, c0, c1) == Some(SymbolOf(c0, c1))
    ensures WriteOperatorSymbol(g, i, o) == Step(Accept(i + 2), EmitOperator(o, SymbolOf(c0, c1)))
  {
    hide FindPair, SymbolOf, EmitOperator;
  }

  /** A conversion to a type. */
  lemma CastIs(g: Grammar, i: nat, o: Out, end: nat, x: Out)
    requires i + 2 <= |g.text| && g.At2(i, 'c', 'v')
    requires WriteType(g, i + 2, Emit(o, "operator ").(nest := 0)) == Step(Accept(end), x)
    ensures WriteUnqualifiedName(g, i, o) == Step(Accept(end), x.(nest := o.nest))
  {
    hide WriteType, Grammar.Type, Emit, Writes, Keeps;
    assert WriteCast(g, i + 2, o) == Step(Accept(end), x.(nest := o.nest));
    assert WriteOperatorName(g, i, o) == Step(Accept(end), x.(nest := o.nest));
  }

  lemma CtorDtorRead(g: Grammar, i: nat, o: Out)
    requires i + 1 < |g.text|
    requires (g.text[i] == 'C' && g.text[i + 1] in "123") || (g.text[i] == 'D' && g.text[i + 1] in "012")
    ensures WriteUnqualifiedName(g, i, o)
         == Step(Accept(i + 2), EmitName(Emit(o, if g.text[i] == 'C' then "" else "~")))
  {
    hide Emit, EmitName, Writes, Keeps;
    assert WriteOperatorName(g, i, o) == Step(Reject, o);
  }

  lemma UnscopedIs(g: Grammar, i: nat, o: Out)
    requires i <= |g.text| && WriteUnqualifiedName(g, i, o).at.Accept?
    ensures WriteUnscopedName(g, i, o) == WriteUnqualifiedName(g, i, o)
    ensures g.At(i) !in "TS" ==> WritePrefixItem(g, i, o) == WriteUnqualifiedName(g, i, o)
  {
    hide WriteUnqualifiedName, Grammar.UnqualifiedName, Writes, Keeps;
  }

  lemma StdIs(g: Grammar, i: nat, o: Out)
    requires i + 2 <= |g.text| && g.At2(i, 'S', 't') && WriteUnqualifiedName(g, i + 2, Emit(o, "std::")).at.Accept?
    ensures WriteUnscopedName(g, i, o) == WriteUnqualifiedName(g, i + 2, Emit(o, "std::"))
  {
    hide Emit, WriteUnqualifiedName, Grammar.UnqualifiedName, Writes, Keeps;
    NoUnqualified(g, i, o);
  }

  // ---------- the loop over a prefix ----------

  lemma PrefixStep(g: Grammar, i: nat, has: bool, o: Out, e: nat, o': Out)
    requires i <= |g.text| && WritePrefixItem(g, i, Separate(o)) == Step(Accept(e), o')
    ensures WritePrefix(g, i, has, o) == WritePrefix(g, e, true, Deepen(o'))
  {}

  /** Template arguments behind a part start the prefix again. */
  lemma TemplateStep(g: Grammar, i: nat, o: Out, end: nat)
    requires i < |g.text| && g.text[i] == 'I' && g.TemplateArgs(i) == Accept(end)
    ensures WritePrefix(g, i, true, o) == WritePrefix(g, end, false, Emit(Cancel(Separate(o)), "<>"))
  {
    var s := Separate(o);
    NothingAtAll(g, i, s);
    hide Emit, Separate, Cancel, WritePrefixItem, Grammar.PrefixItem, Grammar.TemplateArgs, Writes, Keeps;
  }

  lemma CvRead(g: Grammar, i: nat, cv: Cv, end: nat)
    requires Reads(g, i, CvText(cv)) && end == i + |CvText(cv)| && g.At(end) !in "rVK"
    ensures g.CvEnd(i) == end
  {
    hide Reads;
    var r, v, k := (if cv.r then "r" else ""), (if cv.v then "V" else ""), (if cv.k then "K" else "");
    var b, c := i + |r|, i + |r| + |v|;
    Split(g, i, r, b, v + k);
    Split(g, b, v, c, k);
  }

  // ---------- steps of lists ----------

  lemma MoreTypesStep(g: Grammar, i: nat, e: nat)
    requires i <= |g.text| && g.Type(i) == Accept(e)
    ensures g.MoreTypes(i) == g.MoreTypes(e) && g.BareFunctionType(i) == g.MoreTypes(e)
  {
    hide Grammar.Type;
  }

  lemma MoreArgsStep(g: Grammar, i: nat, e: nat)
    requires i <= |g.text| && g.TemplateArg(i) == Accept(e)
    ensures g.MoreTemplateArgs(i) == g.MoreTemplateArgs(e) && g.TemplateArgList(i) == g.MoreTemplateArgs(e)
  {
    hide Grammar.TemplateArg;
  }

  lemma TypeArgRead(g: Grammar, i: nat, e: nat)
    requires i <= |g.text| && g.Type(i) == Accept(e) && g.At(i) !in "IJ"
    ensures g.TemplateArg(i) == Accept(e)
  {
    hide Grammar.Type;
  }

  lemma PackRead(g: Grammar, i: nat, e: nat)
    requires i < |g.text| && g.text[i] == 'J' && g.MoreTemplateArgs(i + 1) == Accept(e) && g.At(e) == 'E'
    ensures g.TemplateArg(i) == Accept(e + 1)
  {
    hide Grammar.MoreTemplateArgs;
  }

  lemma PrimaryArgRead(g: Grammar, i: nat, e: nat)
    requires i < |g.text| && g.text[i] == 'L' && g.Type(i) == Reject && g.ExprPrimary(i) == Accept(e)
    ensures g.TemplateArg(i) == Accept(e)
  {
    hide Grammar.Type, Grammar.ExprPrimary;
  }

  lemma ComputedRead(g: Grammar, i: nat, e: nat)
    requires Knows(g) && i < |g.text| && g.text[i] == 'X' && g.Expression(i + 1) == Accept(e) && g.At(e) == 'E'
    ensures g.TemplateArg(i) == Accept(e + 1)
  {
    hide Knows, Grammar.Type, Grammar.Expression;
    NoTypeHere(g, i);
  }

  // ---------- literals ----------

  /** An `L` in front of a builtin code or an underscore is no type. */
  lemma NoTypeAtL(g: Grammar, i: nat)
    requires i + 1 < |g.text| && g.text[i] == 'L' && !IsDigit(g.text[i + 1]) && g.text[i + 1] != 'n' && Knows(g)
    ensures g.Type(i) == Reject
  {
    hide Knows, WriteType, Grammar.Type, WriteName, TypeTail, WriteSourceName, Grammar.SourceName, Writes, Keeps;
    NoPlainType(g, i, INITIAL);
    NoNameAtL(g, i, INITIAL);
    NoTail(g, i, INITIAL);
    assert WriteType(g, i, INITIAL).at == Reject;
    WritesType(g, i, INITIAL);
  }

  lemma WritesType(g: Grammar, i: nat, o: Out)
    requires i <= |g.text|
    ensures g.Type(i) == WriteType(g, i, o).at
  {
    hide WriteType, Grammar.Type;
  }

  lemma NoNameAtL(g: Grammar, i: nat, o: Out)
    requires i + 1 < |g.text| && g.text[i] == 'L' && !IsDigit(g.text[i + 1]) && g.text[i + 1] != 'n'
    ensures WriteName(g, i, o) == Step(Reject, o)
  {
    hide WriteSourceName, Grammar.SourceName, Writes, Keeps;
    NoSourceName(g, i, o);
    NoSourceName(g, i + 1, o);
    UndoNothing(o);
    assert WriteOperatorName(g, i, o) == Step(Reject, o);
    assert WriteUnqualifiedName(g, i, o) == Step(Reject, o);
    hide WriteUnqualifiedName, Grammar.UnqualifiedName;
    assert WriteUnscopedName(g, i, o) == Step(Reject, o);
    hide WriteUnscopedName, Grammar.UnscopedName;
    assert WriteTemplatedName(g, i, o) == Step(Reject, o);
  }

  lemma LiteralParts(g: Grammar, i: nat, code: char, digits: string)
    requires Reads(g, i, ("L" + ([code] + digits)) + "E") && IsLiteralCode(code) && Knows(g)
    ensures i + 2 <= |g.text| && g.text[i] == 'L' && Reads(g, i + 2, digits) && g.At(i + 2 + |digits|) == 'E'
    ensures g.Type(i) == Reject && g.Type(i + 1) == Accept(i + 2)
  {
    hide Reads, IsBuiltin, Knows, WriteType, Grammar.Type;
    Split3(g, i, "L", i + 1, [code] + digits, i + 2 + |digits|, "E");
    Split(g, i + 1, [code], i + 2, digits);
    Begins(g, i, "L");
    Begins(g, i + 1, [code]);
    BuiltinIsLower(code);
    BuiltinRead(g, i + 1, INITIAL);
    WritesType(g, i + 1, INITIAL);
    NoTypeAtL(g, i);
  }

  lemma IntRead(g: Grammar, i: nat, code: char, n: int)
    requires Reads(g, i, ("L" + ([code] + IntText(n))) + "E") && IsLiteralCode(code) && Knows(g)
    ensures g.ExprPrimary(i) == Accept(i + 3 + |IntText(n)|) && g.Type(i) == Reject && g.At(i) == 'L'
  {
    hide IntText, Reads, Knows, IsLiteralCode, Grammar.Type, Grammar.Number;
    LiteralParts(g, i, code, IntText(n));
    SignedRead(g, i + 2, n);
    assert g.Literal(i + 1, false) == Accept(i + 3 + |IntText(n)|);
  }

  /** Decimal digits are hexadecimal ones too. */
  lemma {:induction false} DigitRun(g: Grammar, i: nat)
    requires i <= |g.text|
    ensures var d, e := g.RunEnd(i, Digits), g.RunEnd(i, FloatChars); d <= e && (d < e ==> g.At(d) != 'E')
    decreases |g.text| - i
  {
    if i < |g.text| && IsDigit(g.text[i]) { DigitRun(g, i + 1); }
  }

  /** A float of decimal digits only is read as a number. */
  lemma FloatRead(g: Grammar, i: nat, code: char, digits: string)
    requires Reads(g, i, ("L" + ([code] + digits)) + "E") && IsLiteralCode(code) && Knows(g)
    requires digits != "" && forall k :: 0 <= k < |digits| ==> FloatChars.Has(digits[k])
    ensures g.ExprPrimary(i) == Accept(i + 3 + |digits|) && g.Type(i) == Reject && g.At(i) == 'L'
  {
    hide Reads, Knows, IsLiteralCode, Grammar.Type;
    var e := i + 2 + |digits|;
    LiteralParts(g, i, code, digits);
    RunIs(g, i + 2, FloatChars, digits);
    Begins(g, i + 2, digits);
    DigitRun(g, i + 2);
    assert g.Literal(i + 1, true) == Accept(e + 1);
    assert g.Literal(i + 1, false) in {Reject, Accept(e + 1)};
  }

  lemma LiteralRead(g: Grammar, i: nat, l: Literal)
    requires Reads(g, i, LiteralText(l)) && WfLiteral(l) && Knows(g)
    ensures g.ExprPrimary(i) == Accept(i + |LiteralText(l)|) && g.Type(i) == Reject && g.At(i) == 'L'
  {
    hide Reads, Knows, IsLiteralCode, IntText, Grammar.Type, Grammar.ExprPrimary;
    match l {
      case Int(code, n) => IntRead(g, i, code, n);
      case Float(code, digits) => FloatRead(g, i, code, digits);
    }
  }

  lemma AddressRead(g: Grammar, i: nat, end: nat)
    requires Knows(g) && i + 3 <= |g.text| && g.text[i] == 'L' && g.At2(i + 1, '_', 'Z')
    requires g.Encoding(i + 3) == Accept(end) && g.At(end) == 'E'
    ensures g.TemplateArg(i) == Accept(end + 1)
  {
    hide Knows, Grammar.Type, Grammar.Encoding, Grammar.TemplateArg;
    NoTypeAtL(g, i);
    NoTypeHere(g, i + 1);
    assert g.Literal(i + 1, false) == Reject && g.Literal(i + 1, true) == Reject;
    hide Grammar.Literal;
    assert g.MangledName(i + 1) == Accept(end);
    assert g.ExprPrimary(i) == Accept(end + 1);
    PrimaryArgRead(g, i, end + 1);
  }

  // ---------- expressions ----------

  lemma NoExpression(g: Grammar, i: nat)
    requires i < |g.text| && g.text[i] == 'E'
    ensures g.Expression(i) == Reject
  {
    assert g.OperatorName(i) == Reject;
  }

  lemma OperationRead(g: Grammar, i: nat, c0: char, c1: char, e: nat)
    requires Reads(g, i, [c0, c1]) && IsOperator(c0, c1) && Knows(g)
    requires Or(g.Expressions(i + 2, 3), Or(g.Expressions(i + 2, 2), g.Expressions(i + 2, 1))) == Accept(e)
    ensures g.Expression(i) == Accept(e)
  {
    hide IsOperator, Knows, Reads, SymbolOf, EmitOperator, WriteOperatorName, Grammar.OperatorName,
         Grammar.Expressions, WriteUnqualifiedName;
    OperatorRead(g, i, c0, c1, INITIAL);
    assert g.OperatorName(i) == Accept(i + 2);
    assert g.TemplateParam(i) == Reject && g.ExprPrimary(i) == Reject;
    assert Or(g.Operation(i, 3), Or(g.Operation(i, 2), g.Operation(i, 1))) == Accept(e);
    hide Grammar.Operation, Grammar.TemplateParam, Grammar.ExprPrimary;
  }

  lemma ExpressionsStep(g: Grammar, i: nat, count: nat, e: nat)
    requires i <= |g.text| && g.Expression(i) == Accept(e) && e <= |g.text|
    ensures g.Expressions(i, 0) == Accept(i) && g.Expressions(i, count + 1) == g.Expressions(e, count)
  {
    hide Grammar.Expression;
  }

  lemma NoExpressions(g: Grammar, i: nat, count: nat)
    requires i < |g.text| && g.text[i] == 'E'
    ensures g.Expressions(i, 0) == Accept(i) && g.Expressions(i, count + 1) == Reject
  {
    NoExpression(g, i);
    hide Grammar.Expression;
  }

  lemma {:induction false} ExprsJoin(xs: seq<Expr>, ys: seq<Expr>)
    requires WfExprs(xs) && WfExprs(ys)
    ensures WfExprs(xs + ys) && ExprsText(xs + ys) == ExprsText(xs) + ExprsText(ys)
    decreases |xs|
  {
    hide ExprText, ExprsText, WfExpr, WfExprs;
    ExprsAre(xs);
    ExprsAre(xs + ys);
    if xs == [] {
      assert xs + ys == ys;
    } else {
      ExprsJoin(xs[1..], ys);
      assert (xs + ys)[0] == xs[0] && (xs + ys)[1..] == xs[1..] + ys;
      var a, b, c := ExprText(xs[0]), ExprsText(xs[1..]), ExprsText(ys);
      assert a + (b + c) == (a + b) + c;
    }
  }

  lemma ExprsAre(es: seq<Expr>)
    ensures es == [] ==> ExprsText(es) == ""
    ensures es != [] ==> ExprsText(es) == ExprText(es[0]) + ExprsText(es[1..])
    ensures WfExprs(es) <==> es == [] || (WfExpr(es[0]) && WfExprs(es[1..]))
  {
    hide ExprText, WfExpr;
  }

  /** Expressions stand at i, up to an `E`. */
  ghost predicate Stream(g: Grammar, i: nat, es: seq<Expr>, end: nat)
  {
    WfExprs(es) && Reads(g, i, ExprsText(es)) && end == i + |ExprsText(es)| < |g.text| && g.text[end] == 'E'
  }

  lemma StreamFirst(g: Grammar, i: nat, es: seq<Expr>, end: nat)
    requires es != [] && Stream(g, i, es, end)
    ensures WfExpr(es[0]) && Reads(g, i, ExprText(es[0])) && Stream(g, i + |ExprText(es[0])|, es[1..], end)
  {
    hide Reads, ExprText, WfExpr;
    ReadsBoth(g, i, ExprText(es[0]), ExprsText(es[1..]));
  }

  lemma StreamOperands(g: Grammar, i: nat, es: seq<Expr>, end: nat)
    requires es != [] && es[0].Operation? && Stream(g, i, es, end)
    ensures IsOperator(es[0].c0, es[0].c1) && 1 <= |es[0].operands| <= 3 && Reads(g, i, [es[0].c0, es[0].c1])
    ensures Stream(g, i + 2, es[0].operands + es[1..], end)
  {
    hide Reads, IsOperator, ExprsText, WfExprs;
    var op, rest := [es[0].c0, es[0].c1], ExprsText(es[0].operands);
    OperationIs(es);
    ExprsJoin(es[0].operands, es[1..]);
    assert ExprsText(es) == op + (rest + ExprsText(es[1..]));
    ReadsBoth(g, i, op, rest + ExprsText(es[1..]));
  }

  lemma OperationIs(es: seq<Expr>)
    requires es != [] && es[0].Operation? && WfExprs(es)
    ensures IsOperator(es[0].c0, es[0].c1) && 1 <= |es[0].operands| <= 3 && WfExprs(es[0].operands) && WfExprs(es[1..])
    ensures ExprsText(es) == [es[0].c0, es[0].c1] + ExprsText(es[0].operands) + ExprsText(es[1..])
  {
    hide IsOperator;
    assert WfExpr(es[0]);
  }

  /** An operator takes as many expressions as it can get, up to three, whatever it was mangled with; so
      what is read may be more than the first expression, but there is always an expression less to come. */
  lemma {:induction false} FirstRead(g: Grammar, i: nat, es: seq<Expr>, end: nat) returns (e: nat, rest: seq<Expr>)
    requires Knows(g) && es != [] && Stream(g, i, es, end)
    ensures i < e && g.Expression(i) == Accept(e) && Stream(g, e, rest, end) && |rest| < |es|
    decreases end - i, 0
  {
    hide Knows, Reads, Stream, IsOperator, ExprsText, ParamText, WfLiteral, LiteralText, Grammar.Expression;
    StreamFirst(g, i, es, end);
    e, rest := i + |ExprText(es[0])|, es[1..];
    match es[0] {
      case ParamValue(index) =>
        ParamRead(g, i, index);
        LeafRead(g, i, e);
      case Constant(l) =>
        LiteralRead(g, i, l);
        LeafRead(g, i, e);
      case Operation(c0, c1, operands) =>
        StreamOperands(g, i, es, end);
        StreamIs(g, i + 2, operands + es[1..], end);
        e, rest := OperandsRead(g, i + 2, operands + es[1..], end);
        OperationRead(g, i, c0, c1, e);
    }
  }

  lemma StreamIs(g: Grammar, i: nat, es: seq<Expr>, end: nat)
    requires Stream(g, i, es, end)
    ensures i <= end < |g.text| && g.text[end] == 'E' && (es == [] ==> i == end)
  {}

  lemma LeafRead(g: Grammar, i: nat, e: nat)
    requires i <= |g.text| && i < e
    requires (g.At(i) == 'T' && g.TemplateParam(i) == Accept(e)) || (g.At(i) == 'L' && g.ExprPrimary(i) == Accept(e))
    ensures g.Expression(i) == Accept(e)
  {
    hide Grammar.ExprPrimary;
  }

  lemma {:induction false} OperandsRead(g: Grammar, i: nat, es: seq<Expr>, end: nat) returns (e: nat, rest: seq<Expr>)
    requires Knows(g) && es != [] && Stream(g, i, es, end) && i <= end
    ensures i < e && Or(g.Expressions(i, 3), Or(g.Expressions(i, 2), g.Expressions(i, 1))) == Accept(e)
    ensures Stream(g, e, rest, end) && (rest == [] || |rest| + 3 <= |es|)
    decreases end - i, 1
  {
    hide Knows, Stream, Grammar.Expression, Grammar.Expressions;
    e, rest := FirstRead(g, i, es, end);
    StreamIs(g, e, rest, end);
    ExpressionsSteps(g, i, e);
    if rest == [] {
      NoExpressions(g, e, 0);
      NoExpressions(g, e, 1);
    } else {
      var e1 := e;
      e, rest := FirstRead(g, e1, rest, end);
      StreamIs(g, e, rest, end);
      ExpressionsSteps(g, e1, e);
      if rest == [] {
        NoExpressions(g, e, 0);
      } else {
        var e2 := e;
        e, rest := FirstRead(g, e2, rest, end);
        StreamIs(g, e, rest, end);
        ExpressionsSteps(g, e2, e);
      }
    }
  }

  lemma ExpressionsSteps(g: Grammar, i: nat, e: nat)
    requires i <= |g.text| && g.Expression(i) == Accept(e) && e <= |g.text|
    ensures g.Expressions(i, 1) == Accept(e) && g.Expressions(i, 2) == g.Expressions(e, 1)
    ensures g.Expressions(i, 3) == g.Expressions(e, 2)
  {
    hide Grammar.Expression, Grammar.Expressions;
    ExpressionsStep(g, i, 0, e);
    ExpressionsStep(g, i, 1, e);
    ExpressionsStep(g, i, 2, e);
    NoneRead(g, e);
  }

  lemma NoneRead(g: Grammar, i: nat)
    requires i <= |g.text|
    ensures g.Expressions(i, 0) == Accept(i)
  {}

  lemma OneExpr(e: Expr)
    requires WfExpr(e)
    ensures WfExprs([e]) && ExprsText([e]) == ExprText(e)
  {
    hide WfExpr, ExprText;
    assert [e][1..] == [] && ExprText(e) + "" == ExprText(e);
  }

  /** A whole expression in front of an `E` is read up to it. */
  lemma ExprRead(g: Grammar, i: nat, e: Expr)
    requires Knows(g) && WfExpr(e) && Reads(g, i, ExprText(e))
    requires i + |ExprText(e)| < |g.text| && g.text[i + |ExprText(e)|] == 'E'
    ensures g.Expression(i) == Accept(i + |ExprText(e)|)
  {
    hide Knows, Reads, ExprText, ExprsText, WfExpr, WfExprs, Grammar.Expression;
    OneExpr(e);
    var end, rest := FirstRead(g, i, [e], i + |ExprText(e)|);
    assert rest == [];
    StreamIs(g, end, [], i + |ExprText(e)|);
  }

  // ---------- types ----------

  lemma TyAt(g: Grammar, i: nat, t: Ty)
    requires WfTy(t) && Reads(g, i, TyText(t))
    ensures i < |g.text| && Stops(g.At(i)) && g.At(i) !in "EYIJX."
    ensures g.At(i) in "rVK" ==> t.Modified? && t.modifier == g.At(i)
  {
    hide TyText, WfTy;
    TyBegins(t);
    Begins(g, i, TyText(t));
  }

  lemma {:induction false} TyRead(g: Grammar, i: nat, t: Ty, o: Out)
    requires Knows(g) && WfTy(t) && Reads(g, i, TyText(t)) && Stops(g.At(i + |TyText(t)|))
    ensures WriteType(g, i, o) == Step(Accept(i + |TyText(t)|), TyOut(o, t))
    decreases t, 2
  {
    hide WriteType, Knows, Reads, Stops, TyText, TyOut, WfTy;
    match t {
      case Builtin(_) => BuiltinTyRead(g, i, t, o);
      case Vendor(_) => VendorTyRead(g, i, t, o);
      case Modified(_, _) => ModifiedTyRead(g, i, t, o);
      case VendorModified(_, _) => VendorModifiedTyRead(g, i, t, o);
      case Expansion(_) => ExpansionTyRead(g, i, t, o);
      case ArrayOf(_, _) => ArrayTyRead(g, i, t, o);
      case MemberOf(_, _) => MemberTyRead(g, i, t, o);
      case FunctionOf(_, _) => FunctionTyRead(g, i, t, o);
      case Placed(_, _) => PlacedTyRead(g, i, t, o);
      case Class(_) => ClassTyRead(g, i, t, o);
    }
  }

  lemma BuiltinTyRead(g: Grammar, i: nat, t: Ty, o: Out)
    requires t.Builtin? && Knows(g) && WfTy(t) && Reads(g, i, TyText(t))
    ensures WriteType(g, i, o) == Step(Accept(i + |TyText(t)|), TyOut(o, t))
  {
    hide WriteType, Knows, IsBuiltin, Emit, BuiltinReadable;
    Begins(g, i, TyText(t));
    BuiltinRead(g, i, o);
  }

  lemma VendorTyRead(g: Grammar, i: nat, t: Ty, o: Out)
    requires t.Vendor? && Knows(g) && WfTy(t) && Reads(g, i, TyText(t))
    ensures WriteType(g, i, o) == Step(Accept(i + |TyText(t)|), TyOut(o, t))
  {
    hide WriteType, Knows, Reads, IsIdentifier, IdText, Emit, Shown;
    VendorRead(g, i, t.id, o);
  }

  lemma {:induction false} FunctionTyRead(g: Grammar, i: nat, t: Ty, o: Out)
    requires t.FunctionOf? && Knows(g) && WfTy(t) && Reads(g, i, TyText(t))
    ensures WriteType(g, i, o) == Step(Accept(i + |TyText(t)|), TyOut(o, t))
    decreases t, 1
  {
    hide WriteType, Grammar.BareFunctionType, Knows, Reads, TyText, TysText, WfTy, WfTys, TyOut, Emit, ListEnds;
    var head := if t.externC then "FY" else "F";
    var k := i + |head|;
    var end := k + |TysText(t.params)|;
    FunctionParts(g, i, t, head);
    FunctionTextIs(t, head);
    FunctionTypeOut(o, t);
    EndsAtE(g, end);
    TysRead(g, k, t.params);
    FunctionTypeRead(g, i, o, end);
  }

  lemma FunctionTypeOut(o: Out, t: Ty)
    requires t.FunctionOf?
    ensures TyOut(o, t) == Emit(o, "()")
  {
    hide Emit;
  }

  lemma FunctionParts(g: Grammar, i: nat, t: Ty, head: string)
    requires t.FunctionOf? && WfTy(t) && Reads(g, i, TyText(t)) && head == if t.externC then "FY" else "F"
    ensures i < |g.text| && g.text[i] == 'F' && (g.At(i + 1) == 'Y' <==> t.externC)
    ensures t.params != [] && WfTys(t.params) && Reads(g, i + |head|, TysText(t.params))
    ensures g.At(i + |head| + |TysText(t.params)|) == 'E'
  {
    hide Reads, TyText, TysText, WfTy, WfTys;
    FunctionTextIs(t, head);
    var ps := TysText(t.params);
    Split3(g, i, head, i + |head|, ps, i + |head| + |ps|, "E");
    Begins(g, i, head);
    ReadsSlice(g, i, head);
    TysAre(t.params);
    TyBegins(t.params[0]);
    Begins(g, i + |head|, ps);
    if t.externC { assert g.text[i + 1] == g.text[i..i + 2][1]; }
  }

  lemma FunctionTextIs(t: Ty, head: string)
    requires t.FunctionOf? && WfTy(t) && head == if t.externC then "FY" else "F"
    ensures TyText(t) == (head + TysText(t.params)) + "E" && t.params != [] && WfTys(t.params)
  {
    hide TysText, WfTys;
  }

  lemma {:induction false} ModifiedTyRead(g: Grammar, i: nat, t: Ty, o: Out)
    requires t.Modified? && Knows(g) && WfTy(t) && Reads(g, i, TyText(t)) && Stops(g.At(i + |TyText(t)|))
    ensures WriteType(g, i, o) == Step(Accept(i + |TyText(t)|), TyOut(o, t))
    decreases t, 1
  {
    hide WriteType, Knows, Reads, Stops, TyText, TyOut, WfTy;
    ModifierRead(g, i, t);
    BehindRead(g, i, t, o);
    if t.modifier in "rVK" { QualifiersRead(g, i, t, o); }
    ModifiedRead(g, i, o, Step(Accept(i + |TyText(t)|), TyOut(o, t)));
  }

  lemma ModifiedOut(o: Out, t: Ty)
    requires t.Modified?
    ensures TyOut(o, t) == TyOut(o, t.of)
  {}

  /** A modified type, without its modifier. */
  lemma ModifierRead(g: Grammar, i: nat, t: Ty)
    requires t.Modified? && WfTy(t) && Reads(g, i, TyText(t))
    ensures i < |g.text| && g.At(i) == t.modifier && t.modifier in "OPRCGrVK" && WfTy(t.of)
    ensures Reads(g, i + 1, TyText(t.of)) && |TyText(t)| == 1 + |TyText(t.of)|
  {
    hide Reads;
    Begins(g, i, TyText(t));
    ReadsBoth(g, i, [t.modifier], TyText(t.of));
  }

  /** What is behind the modifier. */
  lemma {:induction false} BehindRead(g: Grammar, i: nat, t: Ty, o: Out)
    requires t.Modified? && Knows(g) && WfTy(t) && Reads(g, i, TyText(t)) && Stops(g.At(i + |TyText(t)|))
    ensures i < |g.text| && WriteType(g, i + 1, o) == Step(Accept(i + |TyText(t)|), TyOut(o, t))
    ensures WfTy(t.of) && Reads(g, i + 1, TyText(t.of)) && |TyText(t)| == 1 + |TyText(t.of)|
    ensures TyOut(o, t) == TyOut(o, t.of) && (g.At(i + 1) in "rVK" ==> t.of.Modified?)
    decreases t.of, 3
  {
    hide WriteType, Knows, Reads, Stops, TyText, TyOut, WfTy;
    ModifierRead(g, i, t);
    ModifiedOut(o, t);
    TyRead(g, i + 1, t.of, o);
    TyAt(g, i + 1, t.of);
  }

  /** Qualifiers are read up to three at a time. */
  lemma {:induction false} QualifiersRead(g: Grammar, i: nat, t: Ty, o: Out)
    requires t.Modified? && g.At(i) in "rVK"
    requires Knows(g) && WfTy(t) && Reads(g, i, TyText(t)) && Stops(g.At(i + |TyText(t)|))
    ensures i < |g.text| && WriteType(g, g.CvEnd(i), o) == Step(Accept(i + |TyText(t)|), TyOut(o, t))
    decreases t, 0
  {
    hide WriteType, Knows, Reads, Stops, TyText, TyOut, WfTy, Grammar.CvEnd;
    BehindRead(g, i, t, o);
    CvSteps(g, i);
    if g.CvEnd(i) > i + 1 {
      BehindRead(g, i + 1, t.of, o);
      if g.CvEnd(i) > i + 2 { BehindRead(g, i + 2, t.of.of, o); }
    }
  }

  lemma CvSteps(g: Grammar, i: nat)
    requires i < |g.text| && g.At(i) in "rVK"
    ensures i < g.CvEnd(i) <= i + 3 && (g.CvEnd(i) > i + 1 ==> g.At(i + 1) in "rVK")
    ensures g.CvEnd(i) > i + 2 ==> g.At(i + 2) in "rVK"
  {}

  lemma {:induction false} VendorModifiedTyRead(g: Grammar, i: nat, t: Ty, o: Out)
    requires t.VendorModified? && Knows(g) && WfTy(t) && Reads(g, i, TyText(t)) && Stops(g.At(i + |TyText(t)|))
    ensures WriteType(g, i, o) == Step(Accept(i + |TyText(t)|), TyOut(o, t))
    decreases t, 0
  {
    hide WriteType, WriteSourceName, Knows, Reads, Stops, IdText, IsIdentifier, TyText, TyOut, WfTy, Emit, Shown;
    VendorTextIs(t, o);
    var mid := i + 1 + |IdText(t.id)|;
    Split3(g, i, "U", i + 1, IdText(t.id), mid, TyText(t.of));
    Begins(g, i, "U");
    SourceNameRead(g, i + 1, t.id, o);
    TyRead(g, mid, t.of, Emit(o, Shown(t.id)));
    VendorModifiedRead(g, i, o, mid, Emit(o, Shown(t.id)), Step(Accept(i + |TyText(t)|), TyOut(o, t)));
  }

  lemma VendorTextIs(t: Ty, o: Out)
    requires t.VendorModified? && WfTy(t)
    ensures TyText(t) == ("U" + IdText(t.id)) + TyText(t.of) && IsIdentifier(t.id) && WfTy(t.of)
    ensures TyOut(o, t) == TyOut(Emit(o, Shown(t.id)), t.of)
  {
    hide IdText, IsIdentifier, Emit, Shown;
  }

  lemma {:induction false} ExpansionTyRead(g: Grammar, i: nat, t: Ty, o: Out)
    requires t.Expansion? && Knows(g) && WfTy(t) && Reads(g, i, TyText(t)) && Stops(g.At(i + |TyText(t)|))
    ensures WriteType(g, i, o) == Step(Accept(i + |TyText(t)|), TyOut(o, t))
    decreases t, 0
  {
    hide WriteType, Knows, Reads, Stops, TyText, TyOut, WfTy;
    ExpansionTextIs(t, o);
    ReadsBoth(g, i, "Dp", TyText(t.of));
    ReadsSlice(g, i, "Dp");
    assert g.text[i] == g.text[i..i + 2][0] && g.text[i + 1] == g.text[i..i + 2][1];
    TyRead(g, i + 2, t.of, o);
    ExpansionRead(g, i, o, Step(Accept(i + |TyText(t)|), TyOut(o, t)));
  }

  lemma ExpansionTextIs(t: Ty, o: Out)
    requires t.Expansion? && WfTy(t)
    ensures TyText(t) == "Dp" + TyText(t.of) && WfTy(t.of) && TyOut(o, t) == TyOut(o, t.of)
  {}

  lemma {:induction false} ArrayTyRead(g: Grammar, i: nat, t: Ty, o: Out)
    requires t.ArrayOf? && Knows(g) && WfTy(t) && Reads(g, i, TyText(t)) && Stops(g.At(i + |TyText(t)|))
    ensures WriteType(g, i, o) == Step(Accept(i + |TyText(t)|), TyOut(o, t))
    decreases t, 0
  {
    hide WriteType, Grammar.Number, Knows, Reads, Stops, Decimal, TyText, TyOut, WfTy;
    var dimension := i + 1 + |DimensionText(t.n)|;
    ArrayTextIs(t, o);
    ArrayParts(g, i, DimensionText(t.n), dimension, TyText(t.of));
    TyRead(g, dimension + 1, t.of, o);
    if t.n.Some? {
      NumberRead(g, i + 1, t.n.value);
      ArrayRead(g, i, o, dimension, Step(Accept(i + |TyText(t)|), TyOut(o, t)));
    } else {
      OpenArrayRead(g, i, o, Step(Accept(i + |TyText(t)|), TyOut(o, t)));
    }
  }

  lemma ArrayTextIs(t: Ty, o: Out)
    requires t.ArrayOf? && WfTy(t)
    ensures TyText(t) == ("A" + (DimensionText(t.n) + "_")) + TyText(t.of) && WfTy(t.of)
    ensures TyOut(o, t) == TyOut(o, t.of)
  {
    hide DimensionText;
  }

  lemma ArrayParts(g: Grammar, i: nat, n: string, dimension: nat, of: string)
    requires Reads(g, i, ("A" + (n + "_")) + of) && dimension == i + 1 + |n|
    ensures i < |g.text| && g.text[i] == 'A' && Reads(g, i + 1, n)
    ensures dimension < |g.text| && g.At(dimension) == '_' && Reads(g, dimension + 1, of)
  {
    hide Reads;
    Split3(g, i, "A", i + 1, n + "_", dimension + 1, of);
    Split(g, i + 1, n, dimension, "_");
    Begins(g, i, "A");
    Begins(g, dimension, "_");
  }

  lemma {:induction false} MemberTyRead(g: Grammar, i: nat, t: Ty, o: Out)
    requires t.MemberOf? && Knows(g) && WfTy(t) && Reads(g, i, TyText(t)) && Stops(g.At(i + |TyText(t)|))
    ensures WriteType(g, i, o) == Step(Accept(i + |TyText(t)|), TyOut(o, t))
    decreases t, 0
  {
    hide WriteType, Knows, Reads, Stops, TyText, TyOut, WfTy;
    var mid, x := i + 1 + |TyText(t.owner)|, TyOut(o, t.owner);
    MemberTextIs(t, o);
    MemberParts(g, i, TyText(t.owner), mid, TyText(t.of));
    TyAt(g, mid, t.of);
    TyRead(g, i + 1, t.owner, o);
    MemberRestRead(g, i, t, o, mid, x, i + |TyText(t)|);
  }

  lemma {:induction false} MemberRestRead(g: Grammar, i: nat, t: Ty, o: Out, mid: nat, x: Out, end: nat)
    requires t.MemberOf? && Knows(g) && WfTy(t.of) && i < |g.text| && g.text[i] == 'M' && mid <= |g.text|
    requires Reads(g, mid, TyText(t.of)) && end == mid + |TyText(t.of)| && Stops(g.At(end))
    requires WriteType(g, i + 1, o) == Step(Accept(mid), x)
    ensures WriteType(g, i, o) == Step(Accept(end), TyOut(x, t.of))
    decreases t.of, 3
  {
    hide WriteType, Knows, Reads, Stops, TyText, TyOut, WfTy;
    TyRead(g, mid, t.of, x);
    MemberRead(g, i, o, mid, x, Step(Accept(mid + |TyText(t.of)|), TyOut(x, t.of)));
  }

  lemma MemberParts(g: Grammar, i: nat, owner: string, mid: nat, of: string)
    requires Reads(g, i, ("M" + owner) + of) && mid == i + 1 + |owner|
    ensures i < |g.text| && g.text[i] == 'M' && mid + |of| <= |g.text| && Reads(g, i + 1, owner) && Reads(g, mid, of)
  {
    hide Reads;
    Split3(g, i, "M", i + 1, owner, mid, of);
    Begins(g, i, "M");
  }

  lemma MemberTextIs(t: Ty, o: Out)
    requires t.MemberOf? && WfTy(t)
    ensures TyText(t) == ("M" + TyText(t.owner)) + TyText(t.of) && WfTy(t.owner) && WfTy(t.of)
    ensures TyOut(o, t) == TyOut(TyOut(o, t.owner), t.of)
  {}

  lemma {:induction false} PlacedTyRead(g: Grammar, i: nat, t: Ty, o: Out)
    requires t.Placed? && Knows(g) && WfTy(t) && Reads(g, i, TyText(t)) && Stops(g.At(i + |TyText(t)|))
    ensures WriteType(g, i, o) == Step(Accept(i + |TyText(t)|), TyOut(o, t))
    decreases t, 1
  {
    hide WriteType, Knows, Reads, Grammar.TemplateArgs, PlaceText, TemplateText, WfArgs, WfPlace, PlacedOut;
    var k := i + |PlaceText(t.place)|;
    ReadsBoth(g, i, PlaceText(t.place), TemplateText(t.args));
    if t.args != [] { TemplateRead(g, k, t.args); } else { NoTemplateText(); }
    PlacedRead(g, i, o, t.place, k, i + |TyText(t)|);
  }

  lemma {:induction false} ClassTyRead(g: Grammar, i: nat, t: Ty, o: Out)
    requires t.Class? && Knows(g) && WfTy(t) && Reads(g, i, TyText(t)) && Stops(g.At(i + |TyText(t)|))
    ensures WriteType(g, i, o) == Step(Accept(i + |TyText(t)|), TyOut(o, t))
    decreases t, 1
  {
    hide Knows, Reads, Stops, WriteName, WriteType, NameText, NameOut, WfName;
    NameStarts(t.name);
    Begins(g, i, NameText(t.name));
    NameRead(g, i, t.name, o);
    ClassRead(g, i, o, Step(Accept(i + |NameText(t.name)|), NameOut(o, t.name)));
  }

  /** A list of types is read to its end. */
  lemma {:induction false} TysRead(g: Grammar, i: nat, ts: seq<Ty>)
    requires Knows(g) && WfTys(ts) && Reads(g, i, TysText(ts)) && ListEnds(g, i + |TysText(ts)|)
    ensures g.MoreTypes(i) == Accept(i + |TysText(ts)|)
    ensures g.BareFunctionType(i) == if ts == [] then Reject else Accept(i + |TysText(ts)|)
    decreases ts
  {
    hide WriteType, Grammar.Type, Grammar.MoreTypes, Grammar.BareFunctionType, Knows, Reads, Stops, ListEnds, TyText,
         TysText, WfTy, WfTys, TyOut;
    TysAre(ts);
    if ts == [] {
      NoMoreTypes(g, i);
    } else {
      var e := i + |TyText(ts[0])|;
      ReadsBoth(g, i, TyText(ts[0]), TysText(ts[1..]));
      ReadsSlice(g, i, TysText(ts));
      TysRead(g, e, ts[1..]);
      TysStop(g, e, ts[1..]);
      TyRead(g, i, ts[0], INITIAL);
      WritesType(g, i, INITIAL);
      MoreTypesStep(g, i, e);
    }
  }

  lemma TysAre(ts: seq<Ty>)
    requires WfTys(ts)
    ensures ts == [] ==> TysText(ts) == ""
    ensures ts != [] ==> TysText(ts) == TyText(ts[0]) + TysText(ts[1..]) && WfTy(ts[0]) && WfTys(ts[1..])
  {
    hide TyText, WfTy;
  }

  lemma TysStop(g: Grammar, i: nat, ts: seq<Ty>)
    requires WfTys(ts) && Reads(g, i, TysText(ts)) && ListEnds(g, i + |TysText(ts)|)
    ensures Stops(g.At(i))
  {
    hide TyText, WfTy;
    if ts != [] {
      TyBegins(ts[0]);
      Begins(g, i, TysText(ts));
    }
  }

  // ---------- template arguments ----------

  lemma {:induction false} ArgRead(g: Grammar, i: nat, a: Arg)
    requires Knows(g) && WfArg(a) && Reads(g, i, ArgText(a)) && Stops(g.At(i + |ArgText(a)|))
    ensures g.TemplateArg(i) == Accept(i + |ArgText(a)|)
    decreases a, 2
  {
    hide Grammar.Type, Grammar.TemplateArg, Grammar.ExprPrimary, Knows, Reads, TyText, LiteralText, FunctionText,
         ArgsText, ExprText, WfTy, WfLiteral, WfFunction, WfArgs, WfExpr, Stops;
    match a {
      case TypeArg(t) => TypeArgTyRead(g, i, t);
      case Value(l) =>
        LiteralRead(g, i, l);
        ReadsSlice(g, i, LiteralText(l));
        LiteralStarts(l);
        Begins(g, i, LiteralText(l));
        PrimaryArgRead(g, i, i + |LiteralText(l)|);
      case Address(f) => AddressArgRead(g, i, f);
      case Pack(args) => PackArgRead(g, i, args);
      case Computed(e) => ComputedArgRead(g, i, e);
    }
  }

  lemma LiteralStarts(l: Literal)
    ensures LiteralText(l) != "" && LiteralText(l)[0] == 'L'
  {}

  lemma {:induction false} TypeArgTyRead(g: Grammar, i: nat, t: Ty)
    requires Knows(g) && WfTy(t) && Reads(g, i, TyText(t)) && Stops(g.At(i + |TyText(t)|))
    ensures g.TemplateArg(i) == Accept(i + |TyText(t)|)
    decreases t, 3
  {
    hide WriteType, Grammar.Type, Grammar.TemplateArg, Knows, Reads, TyText, TyOut, WfTy, Stops;
    TyAt(g, i, t);
    TyRead(g, i, t, INITIAL);
    WritesType(g, i, INITIAL);
    TypeArgRead(g, i, i + |TyText(t)|);
  }

  lemma {:induction false} PackArgRead(g: Grammar, i: nat, args: seq<Arg>)
    requires Knows(g) && WfArgs(args) && Reads(g, i, ("J" + ArgsText(args)) + "E")
    ensures g.TemplateArg(i) == Accept(i + |("J" + ArgsText(args)) + "E"|)
    decreases args, 1
  {
    hide Grammar.TemplateArg, Grammar.MoreTemplateArgs, Knows, Reads, ArgsText, WfArgs, Stops;
    Split3(g, i, "J", i + 1, ArgsText(args), i + 1 + |ArgsText(args)|, "E");
    Begins(g, i, "J");
    ArgsRead(g, i + 1, args);
    PackRead(g, i, i + 1 + |ArgsText(args)|);
  }

  lemma ComputedArgRead(g: Grammar, i: nat, e: Expr)
    requires Knows(g) && WfExpr(e) && Reads(g, i, ("X" + ExprText(e)) + "E")
    ensures g.TemplateArg(i) == Accept(i + |("X" + ExprText(e)) + "E"|)
  {
    hide Grammar.TemplateArg, Grammar.Expression, Knows, Reads, ExprText, WfExpr;
    Split3(g, i, "X", i + 1, ExprText(e), i + 1 + |ExprText(e)|, "E");
    Begins(g, i, "X");
    Begins(g, i + 1 + |ExprText(e)|, "E");
    ExprRead(g, i + 1, e);
    ComputedRead(g, i, i + 1 + |ExprText(e)|);
  }

  lemma {:induction false} AddressArgRead(g: Grammar, i: nat, f: Function)
    requires Knows(g) && WfFunction(f) && Reads(g, i, ("L_Z" + FunctionText(f)) + "E")
    ensures g.TemplateArg(i) == Accept(i + |("L_Z" + FunctionText(f)) + "E"|)
    decreases f, 1
  {
    hide WriteEncoding, Grammar.Encoding, Grammar.TemplateArg, Knows, Reads, FunctionText, FunctionOut, WfFunction,
         ListEnds;
    var mid := i + 3 + |FunctionText(f)|;
    Split3(g, i, "L_Z", i + 3, FunctionText(f), mid, "E");
    ReadsSlice(g, i, "L_Z");
    assert g.text[i] == g.text[i..i + 3][0] && g.text[i + 1] == g.text[i..i + 3][1]
        && g.text[i + 2] == g.text[i..i + 3][2];
    EndsAtE(g, mid);
    FunctionRead(g, i + 3, f, INITIAL);
    WritesEncoding(g, i + 3, INITIAL);
    AddressRead(g, i, mid);
  }

  lemma EndsAtE(g: Grammar, i: nat)
    requires g.At(i) == 'E'
    ensures ListEnds(g, i)
  {}

  lemma WritesEncoding(g: Grammar, i: nat, o: Out)
    requires i <= |g.text|
    ensures g.Encoding(i) == WriteEncoding(g, i, o).at
  {
    hide WriteEncoding, Grammar.Encoding;
  }

  lemma ArgBegins(a: Arg)
    requires WfArg(a)
    ensures ArgText(a) != "" && Stops(ArgText(a)[0])
  {
    hide TyText, FunctionText, ArgsText, ExprText, IntText, WfTy, WfLiteral, WfFunction, WfArgs, WfExpr;
    if a.TypeArg? { TyBegins(a.t); }
  }

  /** A list of template arguments is read to its end. */
  lemma {:induction false} ArgsRead(g: Grammar, i: nat, args: seq<Arg>)
    requires Knows(g) && WfArgs(args) && Reads(g, i, ArgsText(args)) && g.At(i + |ArgsText(args)|) == 'E'
    ensures g.MoreTemplateArgs(i) == Accept(i + |ArgsText(args)|)
    ensures args != [] ==> g.TemplateArgList(i) == Accept(i + |ArgsText(args)|)
    ensures Stops(g.At(i))
    decreases args, 0
  {
    hide Grammar.TemplateArg, Grammar.MoreTemplateArgs, Grammar.TemplateArgList, Knows, Reads, WfArg, WfArgs,
         ArgText, ArgsText, ListEnds;
    ArgsAre(args);
    if args == [] {
      EndsAtE(g, i);
      NoMoreTypes(g, i);
    } else {
      var e := i + |ArgText(args[0])|;
      ReadsBoth(g, i, ArgText(args[0]), ArgsText(args[1..]));
      ReadsSlice(g, i, ArgsText(args));
      ArgsRead(g, e, args[1..]);
      ArgRead(g, i, args[0]);
      ArgBegins(args[0]);
      Begins(g, i, ArgText(args[0]));
      MoreArgsStep(g, i, e);
    }
  }

  lemma ArgsAre(args: seq<Arg>)
    requires WfArgs(args)
    ensures args == [] ==> ArgsText(args) == ""
    ensures args != [] ==>
      ArgsText(args) == ArgText(args[0]) + ArgsText(args[1..]) && WfArg(args[0]) && WfArgs(args[1..])
  {
    hide ArgText, WfArg;
  }

  lemma {:induction false} TemplateRead(g: Grammar, i: nat, args: seq<Arg>)
    requires Knows(g) && WfArgs(args) && args != [] && Reads(g, i, TemplateText(args))
    ensures g.At(i) == 'I' && g.TemplateArgs(i) == Accept(i + |TemplateText(args)|)
    decreases args, 1
  {
    hide Grammar.TemplateArgList, Knows, Reads, ArgsText, WfArgs;
    Split3(g, i, "I", i + 1, ArgsText(args), i + 1 + |ArgsText(args)|, "E");
    ArgsRead(g, i + 1, args);
  }

  lemma NoTemplateText()
    ensures TemplateText([]) == ""
  {}

  // ---------- names ----------

  /** Whether a part was read since the loop was entered last. */
  function LastHas(has: bool, items: seq<Item>): bool
    decreases |items|
  {
    if items == [] then has else LastHas(items[0].args == [], items[1..])
  }

  predicate StartsItem(c: char) { IsDigit(c) || c in "LST" }

  predicate StartsKind(c: char) { c in "CDE" || IsLower(c) }

  lemma {:induction false} ItemsRead(g: Grammar, i: nat, has: bool, items: seq<Item>, o: Out)
    requires Knows(g) && WfItems(items) && Reads(g, i, ItemsText(items)) && StartsKind(g.At(i + |ItemsText(items)|))
    ensures WritePrefix(g, i, has, o) ==
      WritePrefix(g, i + |ItemsText(items)|, LastHas(has, items), AfterItems(o, items))
    ensures if items == [] then StartsKind(g.At(i)) else StartsItem(g.At(i))
    decreases items
  {
    hide WritePrefix, Grammar.Prefix, AfterItem, AfterItems, LastHas, Knows, Reads, ItemText, ItemsText, WfItem,
         WfItems, StartsItem, StartsKind, Stops;
    ItemsAre(items, has, o);
    if items != [] {
      var e := i + |ItemText(items[0])|;
      ReadsBoth(g, i, ItemText(items[0]), ItemsText(items[1..]));
      ItemsRead(g, e, items[0].args == [], items[1..], AfterItem(o, items[0]));
      StopsBehind(g.At(e));
      ItemRead(g, i, has, items[0], o);
    }
  }

  lemma StopsBehind(c: char)
    ensures StartsItem(c) || StartsKind(c) ==> Stops(c)
  {}

  lemma ItemsAre(items: seq<Item>, has: bool, o: Out)
    requires WfItems(items)
    ensures items == [] ==> ItemsText(items) == "" && LastHas(has, items) == has && AfterItems(o, items) == o
    ensures items != [] ==>
      && ItemsText(items) == ItemText(items[0]) + ItemsText(items[1..]) && WfItem(items[0]) && WfItems(items[1..])
      && LastHas(has, items) == LastHas(items[0].args == [], items[1..])
      && AfterItems(o, items) == AfterItems(AfterItem(o, items[0]), items[1..])
  {
    hide ItemText, AfterItem, WfItem;
  }

  /** The text of a part without its template arguments. */
  function PartText(item: Item): string
  {
    match item
    case Identifier(internal, id, tags, _) => HeadText(internal, id, tags)
    case Stand(place, _) => PlaceText(place)
  }

  predicate WfPart(item: Item)
  {
    match item
    case Identifier(_, id, tags, _) => IsIdentifier(id) && forall tag :: tag in tags ==> IsIdentifier(tag)
    case Stand(place, _) => WfPlace(place, true)
  }

  lemma ItemIs(item: Item)
    requires WfItem(item)
    ensures ItemText(item) == PartText(item) + TemplateText(item.args) && WfPart(item) && WfArgs(item.args)
  {
    hide HeadText, PlaceText, TemplateText, IsIdentifier, WfPlace, WfArgs;
  }

  lemma {:induction false} ItemRead(g: Grammar, i: nat, has: bool, item: Item, o: Out)
    requires Knows(g) && WfItem(item) && Reads(g, i, ItemText(item)) && Stops(g.At(i + |ItemText(item)|))
    ensures WritePrefix(g, i, has, o) == WritePrefix(g, i + |ItemText(item)|, item.args == [], AfterItem(o, item))
    ensures StartsItem(g.At(i))
    decreases item
  {
    hide WritePrefix, AfterHead, Grammar.TemplateArgs, Emit, Separate, Cancel, Knows, Reads, ItemText, PartText,
         TemplateText, WfItem, WfPart, WfArgs, StartsItem;
    ItemIs(item);
    var e := i + |PartText(item)|;
    ReadsBoth(g, i, PartText(item), TemplateText(item.args));
    if item.args != [] {
      TemplateRead(g, e, item.args);
      PartRead(g, i, has, item, o);
      Begins(g, e, TemplateText(item.args));
      TemplateStep(g, e, AfterHead(o, item), i + |ItemText(item)|);
    } else {
      NoTemplateText();
      PartRead(g, i, has, item, o);
    }
  }

  lemma PartRead(g: Grammar, i: nat, has: bool, item: Item, o: Out)
    requires Knows(g) && WfPart(item) && Reads(g, i, PartText(item)) && g.At(i + |PartText(item)|) !in "B_"
    ensures WritePrefix(g, i, has, o) == WritePrefix(g, i + |PartText(item)|, true, AfterHead(o, item))
    ensures StartsItem(g.At(i))
  {
    hide WritePrefix, WritePrefixItem, PlaceOut, Emit, Separate, Deepen, Shown, Knows, Reads, HeadText, PlaceText,
         IsIdentifier, WfPlace;
    var e, s := i + |PartText(item)|, Separate(o);
    ReadsSlice(g, i, PartText(item));
    match item {
      case Identifier(internal, id, tags, _) =>
        IdItemRead(g, i, internal, id, tags, s);
        PrefixStep(g, i, has, o, e, Emit(s, Shown(id)));
      case Stand(place, _) =>
        PlaceItemRead(g, i, place, s);
        PrefixStep(g, i, has, o, e, PlaceOut(s, place));
    }
  }

  lemma IdItemRead(g: Grammar, i: nat, internal: bool, id: string, tags: seq<string>, o: Out)
    requires Reads(g, i, HeadText(internal, id, tags)) && g.At(i + |HeadText(internal, id, tags)|) !in "B_"
    requires IsIdentifier(id) && forall tag :: tag in tags ==> IsIdentifier(tag)
    ensures WritePrefixItem(g, i, o) == Step(Accept(i + |HeadText(internal, id, tags)|), Emit(o, Shown(id)))
    ensures StartsItem(g.At(i))
  {
    hide WritePrefixItem, WriteUnqualifiedName, Emit, Shown, Reads, HeadText, IsIdentifier;
    ReadsSlice(g, i, HeadText(internal, id, tags));
    HeadRead(g, i, internal, id, tags, o);
    UnscopedIs(g, i, o);
  }

  lemma {:induction false} KindRead(g: Grammar, i: nat, has: bool, kind: Kind, last: string, o: Out)
    requires Reads(g, i, KindCode(kind) + "E") && Knows(g) && WfKind(kind, last)
    ensures WritePrefix(g, i, has, o) == Step(Accept(i + |KindCode(kind)|), Cancel(Separate(AfterKind(o, kind))))
    ensures StartsKind(g.At(i)) && g.At(i + |KindCode(kind)|) == 'E'
    decreases kind, 1
  {
    hide Separate, Cancel, WritePrefix, AfterKind, Knows, Reads, WfKind, KindCode;
    ReadsBoth(g, i, KindCode(kind), "E");
    var e := i + |KindCode(kind)|;
    Begins(g, e, "E");
    if kind.Ordinary? {
      OrdinaryIs(o);
    } else {
      KindItemRead(g, i, has, kind, last, o);
    }
    NothingAtE(g, e, !kind.Ordinary? || has, AfterKind(o, kind));
  }

  lemma OrdinaryIs(o: Out)
    ensures KindCode(Ordinary) == "" && AfterKind(o, Ordinary) == o
  {}

  lemma {:induction false} KindItemRead(g: Grammar, i: nat, has: bool, kind: Kind, last: string, o: Out)
    requires Reads(g, i, KindCode(kind)) && Knows(g) && WfKind(kind, last) && !kind.Ordinary?
    requires g.At(i + |KindCode(kind)|) == 'E'
    ensures WritePrefix(g, i, has, o) == WritePrefix(g, i + |KindCode(kind)|, true, AfterKind(o, kind))
    ensures StartsKind(g.At(i))
    decreases kind, 0
  {
    hide Emit, EmitName, EmitOperator, Separate, Deepen, WritePrefix, WritePrefixItem, SymbolOf, Knows, IsOperator,
         Reads;
    hide WriteUnqualifiedName, TyText, TyOut, WfTy, IsIdentifier, IdText, Shown;
    var e, s := i + |KindCode(kind)|, Separate(o);
    ReadsSlice(g, i, KindCode(kind));
    if kind.Operator? {
      OperatorRead(g, i, kind.c0, kind.c1, s);
      UnscopedIs(g, i, s);
      PrefixStep(g, i, has, o, e, EmitOperator(s, SymbolOf(kind.c0, kind.c1)));
    } else if kind.VendorOperator? {
      VendorOperatorRead(g, i, kind.operands, kind.id, s);
      UnscopedIs(g, i, s);
      PrefixStep(g, i, has, o, e, Emit(s, Shown(kind.id)));
    } else if kind.Cast? {
      CastRead(g, i, kind.t, s);
      UnscopedIs(g, i, s);
      PrefixStep(g, i, has, o, e, TyOut(Emit(s, "operator ").(nest := 0), kind.t).(nest := s.nest));
    } else {
      assert g.text[i] == g.text[i..i + 2][0] && g.text[i + 1] == g.text[i..i + 2][1];
      CtorDtorRead(g, i, s);
      UnscopedIs(g, i, s);
      PrefixStep(g, i, has, o, e, EmitName(Emit(s, if kind.Constructor? then "" else "~")));
    }
  }

  lemma VendorOperatorRead(g: Grammar, i: nat, operands: char, id: string, o: Out)
    requires Reads(g, i, ("v" + [operands]) + IdText(id)) && IsDigit(operands) && IsIdentifier(id)
    ensures WriteUnqualifiedName(g, i, o) == Step(Accept(i + 2 + |IdText(id)|), Emit(o, Shown(id)))
    ensures g.At(i) == 'v'
  {
    hide Reads, Emit, Shown, IdText, IsIdentifier, WriteSourceName, Grammar.SourceName, Writes, Keeps;
    Split3(g, i, "v", i + 1, [operands], i + 2, IdText(id));
    SourceNameRead(g, i + 2, id, o);
    assert WriteOperatorName(g, i, o) == Step(Accept(i + 2 + |IdText(id)|), Emit(o, Shown(id)));
  }

  lemma {:induction false} CastRead(g: Grammar, i: nat, t: Ty, o: Out)
    requires Reads(g, i, "cv" + TyText(t)) && Knows(g) && WfTy(t) && g.At(i + 2 + |TyText(t)|) == 'E'
    ensures WriteUnqualifiedName(g, i, o) ==
      Step(Accept(i + 2 + |TyText(t)|), TyOut(Emit(o, "operator ").(nest := 0), t).(nest := o.nest))
    ensures g.At(i) == 'c'
    decreases t, 3
  {
    hide Emit, Knows, Reads, WriteUnqualifiedName, WriteType, TyText, TyOut, WfTy, Stops;
    var x := Emit(o, "operator ").(nest := 0);
    ReadsBoth(g, i, "cv", TyText(t));
    ReadsSlice(g, i, "cv");
    assert g.text[i] == g.text[i..i + 2][0] && g.text[i + 1] == g.text[i..i + 2][1];
    StopsAtE(g, i + 2 + |TyText(t)|);
    TyRead(g, i + 2, t, x);
    CastIs(g, i, o, i + 2 + |TyText(t)|, TyOut(x, t));
  }

  lemma StopsAtE(g: Grammar, i: nat)
    requires g.At(i) == 'E'
    ensures Stops(g.At(i))
  {}

  // ---------- names from their parts ----------

  lemma UnscopedNameIs(g: Grammar, i: nat, o: Out, e: nat, u: Out, v: Out)
    requires i <= |g.text| && e <= |g.text| && g.At(i) !in "NZ" && g.At(e) != 'I'
    requires WriteUnscopedName(g, i, o) == Step(Accept(e), u)
    requires WriteUnscopedName(g, i, Undo(o, u)) == Step(Accept(e), v)
    ensures WriteName(g, i, o) == Step(Accept(e), v)
  {
    hide WriteUnscopedName, Grammar.UnscopedName, Undo, Writes, Keeps;
    NoTemplateArgs(g, e);
    assert WriteTemplatedName(g, i, o) == Step(Reject, Undo(o, u));
  }

  lemma TemplatedNameIs(g: Grammar, i: nat, o: Out, e: nat, u: Out, end: nat)
    requires i <= |g.text| && e <= |g.text| && g.At(i) !in "NZ" && g.TemplateArgs(e) == Accept(end)
    requires WriteUnscopedName(g, i, o) == Step(Accept(e), u)
    ensures WriteName(g, i, o) == Step(Accept(end), Emit(u, "<>"))
  {
    hide WriteUnscopedName, Grammar.UnscopedName, Grammar.TemplateArgs, Emit, Writes, Keeps;
    assert WriteTemplatedName(g, i, o) == Step(Accept(end), Emit(u, "<>"));
  }

  lemma LocalNameIs(g: Grammar, i: nat, o: Out, mid: nat, x: Out, end: nat, y: Out)
    requires i < |g.text| && g.text[i] == 'Z' && WriteEncoding(g, i + 1, o) == Step(Accept(mid), x)
    requires g.At(mid) == 'E' && WriteName(g, mid + 1, Emit(x, "::")) == Step(Accept(end), y) && end <= |g.text|
    ensures WriteName(g, i, o) == Step(Accept(g.AfterDiscriminator(end)), y)
  {
    hide WriteEncoding, Grammar.Encoding, WriteName, Grammar.Name, Emit, Keeps, Grammar.AfterDiscriminator;
    assert WriteEntityName(g, mid + 1, x) == Step(Accept(g.AfterDiscriminator(end)), y);
    assert WriteLocalEntity(g, i + 1, o) == Step(Accept(g.AfterDiscriminator(end)), y);
    LocalIsName(g, i, o);
  }

  lemma LocalIsName(g: Grammar, i: nat, o: Out)
    requires i < |g.text| && g.text[i] == 'Z' && WriteLocalName(g, i, o).at.Accept?
    ensures WriteName(g, i, o) == WriteLocalName(g, i, o)
  {
    hide WriteLocalName, Grammar.LocalName, Writes, Keeps;
  }

  lemma NestedNameIs(g: Grammar, i: nat, o: Out, k: nat, end: nat, x: Out)
    requires i < |g.text| && g.text[i] == 'N' && g.CvEnd(i + 1) == k && g.At(end) == 'E'
    requires WritePrefix(g, k, false, o.(nest := 0)) == Step(Accept(end), x)
    ensures WriteName(g, i, o) == Step(Accept(end + 1), x.(nest := o.nest))
  {
    hide WritePrefix, Grammar.Prefix, Writes, Keeps;
    assert WriteNestedName(g, i, o) == Step(Accept(end + 1), x.(nest := o.nest));
  }

  lemma FunctionIs(g: Grammar, i: nat, o: Out, mid: nat, x: Out, end: nat)
    requires i <= |g.text| && WriteName(g, i, o) == Step(Accept(mid), x) && g.BareFunctionType(mid) == Accept(end)
    ensures WriteEncoding(g, i, o) == Step(Accept(end), Emit(x, "()"))
  {
    hide WriteName, Grammar.Name, Grammar.BareFunctionType, Emit, Writes, Keeps;
  }

  lemma {:induction false} NameRead(g: Grammar, i: nat, name: Name, o: Out)
    requires Knows(g) && WfName(name) && Reads(g, i, NameText(name)) && Stops(g.At(i + |NameText(name)|))
    ensures WriteName(g, i, o) == Step(Accept(i + |NameText(name)|), NameOut(o, name))
    decreases name, 1
  {
    hide WriteName, Knows, Reads, Stops, NameText, NameOut, WfName;
    match name {
      case Nested(_, _, _) => NestedRead(g, i, name, o);
      case Unscoped(_, _) => UnscopedRead(g, i, name, o);
      case FreeOperator(_, _) => FreeOperatorRead(g, i, name, o);
      case Local(_, _) => LocalRead(g, i, name, o);
    }
  }

  lemma {:induction false} NestedRead(g: Grammar, i: nat, name: Name, o: Out)
    requires name.Nested? && Knows(g) && WfName(name) && Reads(g, i, NameText(name))
    ensures WriteName(g, i, o) == Step(Accept(i + |NameText(name)|), NameOut(o, name))
    decreases name, 0
  {
    hide WriteName, WritePrefix, AfterItems, AfterKind, Separate, Cancel, Knows, Reads, KindCode, ItemsText, CvText,
         WfItems, WfKind, NameText, NameOut;
    NestedIs(name, o);
    var k := i + 1 + |CvText(name.cv)|;
    var e := k + |ItemsText(name.items)|;
    var end := e + |KindCode(name.kind)|;
    NestedParts(g, i, CvText(name.cv), k, ItemsText(name.items), e, KindCode(name.kind));
    NestedRest(g, k, e, name, end, o.(nest := 0));
    CvRead(g, i + 1, name.cv, k);
    NestedNameIs(g, i, o, k, end,
                 Cancel(Separate(AfterKind(AfterItems(o.(nest := 0), name.items), name.kind))));
  }

  lemma NestedParts(g: Grammar, i: nat, cv: string, k: nat, items: string, e: nat, kind: string)
    requires Reads(g, i, (("N" + cv) + items) + (kind + "E")) && k == i + 1 + |cv| && e == k + |items|
    ensures i < |g.text| && g.text[i] == 'N' && Reads(g, i + 1, cv) && Reads(g, k, items) && Reads(g, e, kind + "E")
  {
    hide Reads;
    Split3(g, i, "N" + cv, k, items, e, kind + "E");
    Split(g, i, "N", i + 1, cv);
    Begins(g, i, "N");
  }

  lemma {:induction false} NestedRest(g: Grammar, k: nat, e: nat, name: Name, end: nat, p: Out)
    requires name.Nested? && name.items != [] && WfItems(name.items) && Knows(g)
    requires WfKind(name.kind, OwnName(name.items[|name.items| - 1]))
    requires Reads(g, k, ItemsText(name.items)) && e == k + |ItemsText(name.items)|
    requires Reads(g, e, KindCode(name.kind) + "E") && end == e + |KindCode(name.kind)|
    ensures k <= |g.text| && WritePrefix(g, k, false, p) ==
      Step(Accept(end), Cancel(Separate(AfterKind(AfterItems(p, name.items), name.kind))))
    ensures g.At(k) !in "rVK" && g.At(end) == 'E'
    decreases name, 0, 0
  {
    hide WritePrefix, AfterItems, AfterKind, LastHas, Separate, Cancel, Knows, Reads, KindCode, ItemsText, WfItems,
         WfKind, StartsKind, StartsItem;
    var items, kind := name.items, name.kind;
    ReadsSlice(g, k, ItemsText(items));
    KindRead(g, e, LastHas(false, items), kind, OwnName(items[|items| - 1]), AfterItems(p, items));
    ItemsRead(g, k, false, items, p);
    NoCv(g.At(k));
  }

  lemma NestedIs(name: Name, o: Out)
    requires name.Nested? && WfName(name)
    ensures name.items != [] && WfItems(name.items) && WfKind(name.kind, OwnName(name.items[|name.items| - 1]))
    ensures NameText(name) == (("N" + CvText(name.cv)) + ItemsText(name.items)) + (KindCode(name.kind) + "E")
    ensures NameOut(o, name) ==
      Cancel(Separate(AfterKind(AfterItems(o.(nest := 0), name.items), name.kind))).(nest := o.nest)
  {
    hide AfterItems, AfterKind, Separate, Cancel, KindCode, ItemsText, CvText, WfItems, WfKind;
  }

  lemma NoCv(c: char)
    requires StartsItem(c)
    ensures c !in "rVK"
  {}

  lemma {:induction false} UnscopedRead(g: Grammar, i: nat, name: Name, o: Out)
    requires name.Unscoped? && Knows(g) && WfName(name) && Reads(g, i, NameText(name))
    requires Stops(g.At(i + |NameText(name)|))
    ensures WriteName(g, i, o) == Step(Accept(i + |NameText(name)|), NameOut(o, name))
    decreases name, 0
  {
    hide WriteName, WriteUnscopedName, Grammar.TemplateArgs, UnscopedOut, Emit, Undo, Knows, Reads, HeadText,
         TemplateText, IsIdentifier, WfArgs, NameText, NameOut;
    UnscopedParts(name, o);
    var std, item := name.std, name.item;
    var head := (if std then "St" else "") + HeadText(item.internal, item.id, item.tags);
    var e := i + |head|;
    ReadsBoth(g, i, head, TemplateText(item.args));
    ReadsSlice(g, i, head);
    if item.args != [] { TemplateRead(g, e, item.args); } else { NoTemplateText(); }
    var u := UnscopedOut(o, std, item.id);
    UnscopedHeadRead(g, i, std, item, o);
    if item.args == [] {
      UnscopedHeadRead(g, i, std, item, Undo(o, u));
      UnscopedNameIs(g, i, o, e, u, UnscopedOut(Undo(o, u), std, item.id));
    } else {
      TemplatedNameIs(g, i, o, e, u, e + |TemplateText(item.args)|);
    }
  }

  lemma UnscopedParts(name: Name, o: Out)
    requires name.Unscoped? && WfName(name)
    ensures name.item.Identifier? && IsIdentifier(name.item.id) && WfArgs(name.item.args)
    ensures forall tag :: tag in name.item.tags ==> IsIdentifier(tag)
    ensures NameText(name) == ((if name.std then "St" else "")
      + HeadText(name.item.internal, name.item.id, name.item.tags)) + TemplateText(name.item.args)
    ensures var u := UnscopedOut(o, name.std, name.item.id);
      NameOut(o, name) ==
        if name.item.args == [] then UnscopedOut(Undo(o, u), name.std, name.item.id) else Emit(u, "<>")
  {
    hide UnscopedOut, Emit, Undo, HeadText, TemplateText, IsIdentifier, WfArgs;
  }

  lemma UnscopedHeadRead(g: Grammar, i: nat, std: bool, item: Item, o: Out)
    requires item.Identifier? && IsIdentifier(item.id) && forall tag :: tag in item.tags ==> IsIdentifier(tag)
    requires Reads(g, i, (if std then "St" else "") + HeadText(item.internal, item.id, item.tags))
    requires g.At(i + |(if std then "St" else "") + HeadText(item.internal, item.id, item.tags)|)
      !in if item.internal then "B_" else "B"
    ensures WriteUnscopedName(g, i, o) ==
      Step(Accept(i + |(if std then "St" else "") + HeadText(item.internal, item.id, item.tags)|),
           UnscopedOut(o, std, item.id))
    ensures g.At(i) !in "NZ"
  {
    hide WriteUnscopedName, WriteUnqualifiedName, Emit, Shown, Reads, HeadText, IsIdentifier;
    var head := HeadText(item.internal, item.id, item.tags);
    if std {
      StdHeadRead(g, i, item, o, i + 2 + |head|);
    } else {
      assert "" + head == head;
      ReadsSlice(g, i, head);
      HeadRead(g, i, item.internal, item.id, item.tags, o);
      UnscopedIs(g, i, o);
    }
  }

  lemma StdHeadRead(g: Grammar, i: nat, item: Item, o: Out, end: nat)
    requires item.Identifier? && IsIdentifier(item.id) && forall tag :: tag in item.tags ==> IsIdentifier(tag)
    requires Reads(g, i, "St" + HeadText(item.internal, item.id, item.tags))
    requires end == i + 2 + |HeadText(item.internal, item.id, item.tags)|
    requires g.At(end) !in if item.internal then "B_" else "B"
    ensures WriteUnscopedName(g, i, o) == Step(Accept(end), Emit(Emit(o, "std::"), Shown(item.id))) && g.At(i) == 'S'
  {
    hide WriteUnscopedName, WriteUnqualifiedName, Emit, Shown, Reads, HeadText, IsIdentifier;
    var head := HeadText(item.internal, item.id, item.tags);
    Split(g, i, "St", i + 2, head);
    ReadsSlice(g, i, "St");
    assert g.text[i] == g.text[i..i + 2][0] && g.text[i + 1] == g.text[i..i + 2][1];
    HeadRead(g, i + 2, item.internal, item.id, item.tags, Emit(o, "std::"));
    StdIs(g, i, o);
  }

  lemma FreeOperatorRead(g: Grammar, i: nat, name: Name, o: Out)
    requires name.FreeOperator? && Knows(g) && WfName(name) && Reads(g, i, NameText(name))
    requires Stops(g.At(i + |NameText(name)|))
    ensures WriteName(g, i, o) == Step(Accept(i + |NameText(name)|), NameOut(o, name))
  {
    hide WriteName, WriteUnscopedName, WriteUnqualifiedName, WriteOperatorName, EmitOperator, SymbolOf, Undo, Knows,
         Reads, IsOperator;
    var c0, c1 := name.c0, name.c1;
    var u := EmitOperator(o, SymbolOf(c0, c1));
    ReadsSlice(g, i, [c0, c1]);
    OperatorRead(g, i, c0, c1, o);
    UnscopedIs(g, i, o);
    OperatorRead(g, i, c0, c1, Undo(o, u));
    UnscopedIs(g, i, Undo(o, u));
    UnscopedNameIs(g, i, o, i + 2, u, EmitOperator(Undo(o, u), SymbolOf(c0, c1)));
  }

  lemma {:induction false} LocalRead(g: Grammar, i: nat, name: Name, o: Out)
    requires name.Local? && Knows(g) && WfName(name) && Reads(g, i, NameText(name))
    requires Stops(g.At(i + |NameText(name)|))
    ensures WriteName(g, i, o) == Step(Accept(i + |NameText(name)|), NameOut(o, name))
    decreases name, 0
  {
    hide WriteName, WriteEncoding, FunctionOut, NameOut, Emit, Knows, Reads, Stops, NameText, FunctionText, WfName,
         WfFunction;
    var f, entity, end := name.f, name.entity, i + |NameText(name)|;
    var mid := i + 1 + |FunctionText(f)|;
    LocalTextIs(name);
    LocalOut(o, name);
    Split(g, i, ("Z" + FunctionText(f)) + "E", mid + 1, NameText(entity));
    ScopeRead(g, i, f, o);
    NameRead(g, mid + 1, entity, Emit(FunctionOut(o, f), "::"));
    NoDiscriminatorAt(g, end);
    LocalNameIs(g, i, o, mid, FunctionOut(o, f), end, NameOut(o, name));
  }

  lemma NoDiscriminatorAt(g: Grammar, i: nat)
    requires i <= |g.text| && Stops(g.At(i))
    ensures g.AfterDiscriminator(i) == i
  {}

  lemma LocalTextIs(name: Name)
    requires name.Local? && WfName(name)
    ensures NameText(name) == (("Z" + FunctionText(name.f)) + "E") + NameText(name.entity)
    ensures WfFunction(name.f) && WfName(name.entity)
  {
    hide FunctionText, WfFunction;
  }

  lemma LocalOut(o: Out, name: Name)
    requires name.Local?
    ensures NameOut(o, name) == NameOut(Emit(FunctionOut(o, name.f), "::"), name.entity)
  {
    hide Emit, FunctionOut;
  }

  /** The function in which something is local, up to its `E`. */
  lemma {:induction false} ScopeRead(g: Grammar, i: nat, f: Function, o: Out)
    requires Knows(g) && WfFunction(f) && Reads(g, i, ("Z" + FunctionText(f)) + "E")
    ensures i < |g.text| && g.text[i] == 'Z' && g.At(i + 1 + |FunctionText(f)|) == 'E'
    ensures WriteEncoding(g, i + 1, o) == Step(Accept(i + 1 + |FunctionText(f)|), FunctionOut(o, f))
    decreases f, 1
  {
    hide WriteEncoding, FunctionOut, Knows, Reads, ListEnds, FunctionText, WfFunction;
    Split3(g, i, "Z", i + 1, FunctionText(f), i + 1 + |FunctionText(f)|, "E");
    Begins(g, i, "Z");
    EndsAtE(g, i + 1 + |FunctionText(f)|);
    FunctionRead(g, i + 1, f, o);
  }

  lemma {:induction false} FunctionRead(g: Grammar, i: nat, f: Function, o: Out)
    requires Knows(g) && WfFunction(f) && Reads(g, i, FunctionText(f)) && ListEnds(g, i + |FunctionText(f)|)
    ensures WriteEncoding(g, i, o) == Step(Accept(i + |FunctionText(f)|), FunctionOut(o, f))
    decreases f, 0
  {
    hide WriteName, WriteEncoding, Grammar.BareFunctionType, Knows, Reads, Stops, ListEnds, Emit, NameText, NameOut,
         TysText;
    hide WfName, WfTys;
    var mid := i + |NameText(f.name)|;
    ReadsBoth(g, i, NameText(f.name), TysText(f.params));
    TysStop(g, mid, f.params);
    TysRead(g, mid, f.params);
    NameRead(g, i, f.name, o);
    FunctionIs(g, i, o, mid, NameOut(o, f.name), mid + |TysText(f.params)|);
  }
}
