/** Whatever a compiler mangles, the demangler shows in its readable form. */
module DemangleRoundTrip {
  import opened Lists
  import opened MangledText
  import opened DemangleGrammar
  import opened DemangleBuffer
  import opened DemangleOutput
  import opened DemangleReading
  import opened DemangleNames
  import opened DemangleSymbols
  import opened DemangleReadable
  import opened DemangleTables
  import opened Demangling
  import opened Mangling
  import Ends = DemangleEnds
  import Fit = DemangleFit

  // ---------- symbols ----------

  /** The symbols that are functions end with their parentheses. */
  predicate IsFunction(symbol: Symbol)
  {
    symbol.Callable? || symbol.Alias? || symbol.Thunk? || symbol.CovariantThunk? || symbol.GnuThunk?
  }

  lemma FunctionSymbolWritten(symbol: Symbol)
    requires IsFunction(symbol) && WfSymbol(symbol)
    ensures var o, t := SymbolOut(INITIAL, symbol), SymbolReadable(symbol);
      |t| >= 2 && Shows(o, t, |t| - 2) && o.ideal.ended && o.ideal.need == |t|
  {
    hide Shows, FunctionOut, NameReadable, WfFunction;
    var f := symbol.f;
    ReadableIs(f);
    InitialShows(|Readable(f)| - 2);
    assert "" + Readable(f) == Readable(f);
    FunctionWritten(INITIAL, "", |Readable(f)| - 2, f);
  }

  lemma ReadableIs(f: Function)
    requires WfFunction(f)
    ensures |Readable(f)| >= 2
  {
    hide NameReadable, WfName;
  }

  lemma InitialShows(w: nat)
    ensures Shows(INITIAL, "", w)
  {}

  /** A name that was taken for a function at first. */
  lemma AgainWritten(name: Name)
    requires WfName(name)
    ensures var o, t := NameOut(Undo(INITIAL, NameOut(INITIAL, name)), name), NameReadable(name);
      Shows(o, t, |t| + 2) && o.ideal.ended
  {
    hide Shows, NameOut, NameReadable, Undo, WfName;
    var t := NameReadable(name);
    assert "" + t == t;
    InitialShows(|t| + 2);
    NameWritten(INITIAL, "", |t| + 2, name);
    AnyUndoShows(INITIAL, "", NameOut(INITIAL, name), t, |t| + 2);
    NameWritten(Undo(INITIAL, NameOut(INITIAL, name)), "", |t| + 2, name);
  }

  lemma AnyUndoShows(o: Out, text: string, u: Out, longer: string, w: nat)
    requires Shows(o, text, w) && Shows(u, longer, w) && |text| <= |longer| && |longer| + 2 <= w
    ensures Shows(Undo(o, u), text, w) && Undo(o, u).nest == o.nest
  {
    UndoShows(o, text, u, longer, w);
  }

  lemma StringOutWritten(o: Out, w: nat, f: Function)
    requires Shows(o, "", w) && WfFunction(f) && |Readable(f)| + 4 <= w
    ensures Shows(StringOut(o, f), Readable(f), w) && StringOut(o, f).ideal.ended
  {
    hide Shows, FunctionOut, Readable, Undo, Emit, WfFunction, Direct;
    var x := FunctionOut(o, f);
    var t := Readable(f);
    assert "" + t == t;
    FunctionWritten(o, "", w, f);
    EmitShows(x, t, w, "::");
    AnyUndoShows(x, t, Emit(x, "::"), t + "::", w);
    AnyUndoShows(o, "", Undo(x, Emit(x, "::")), t, w);
    FunctionWritten(Undo(o, Undo(x, Emit(x, "::"))), "", w, f);
  }

  lemma StringWritten(f: Function)
    requires WfFunction(f)
    ensures var o, t := StringOut(Undo(INITIAL, StringOut(INITIAL, f)), f), Readable(f);
      Shows(o, t, |t| + 4) && o.ideal.ended
  {
    hide Shows, StringOut, Readable, Undo, WfFunction;
    var t := Readable(f);
    InitialShows(|t| + 4);
    StringOutWritten(INITIAL, |t| + 4, f);
    AnyUndoShows(INITIAL, "", StringOut(INITIAL, f), t, |t| + 4);
    StringOutWritten(Undo(INITIAL, StringOut(INITIAL, f)), |t| + 4, f);
  }

  lemma StaticIs(f: Function, id: string)
    requires WfFunction(f) && IsIdentifier(id)
    ensures WfName(StaticName(f, id)) && NameReadable(StaticName(f, id)) == Readable(f) + "::" + IdReadable(id)
  {
    hide WfFunction, Readable, IsIdentifier, IdReadable;
    var item := Identifier(false, id, [], []);
    var name := Unscoped(false, item);
    assert WfArgs([]) && WfItem(item);
    assert NameReadable(name) == "" + (IdReadable(id) + "") == IdReadable(id);
    LocalReadable(f, name);
  }

  lemma LocalReadable(f: Function, entity: Name)
    requires WfFunction(f) && WfName(entity)
    ensures WfName(Local(f, entity)) && NameReadable(Local(f, entity)) == Readable(f) + "::" + NameReadable(entity)
  {
    hide WfFunction, Readable, WfItems, WfItem, WfKind, IsOperator, Joined, ItemReadable, KindReadable,
         OperatorReadable;
    var name := Local(f, entity);
    assert WfName(name);
  }

  lemma TypeSymbolWritten(t: Ty)
    requires WfTy(t)
    ensures var o, r := TyOut(INITIAL, t), TyReadable(t); Shows(o, r, |r|) && o.ideal.ended
  {
    hide Shows, TyOut, TyReadable, WfTy;
    var r := TyReadable(t);
    assert "" + r == r;
    InitialShows(|r|);
    TyWritten(INITIAL, "", |r|, t);
  }

  lemma NameSymbolWritten(name: Name)
    requires WfName(name)
    ensures var o, r := NameOut(INITIAL, name), NameReadable(name); Shows(o, r, |r|) && o.ideal.ended
  {
    hide Shows, NameOut, NameReadable, WfName;
    var r := NameReadable(name);
    assert "" + r == r;
    InitialShows(|r|);
    NameWritten(INITIAL, "", |r|, name);
  }

  /** What is written for a symbol is its readable form. */
  lemma SymbolShown(symbol: Symbol)
    requires WfSymbol(symbol)
    ensures var o, t := SymbolOut(INITIAL, symbol), SymbolReadable(symbol);
      && o.ideal.text == t && o.ideal.ended && o.append
      && (IsFunction(symbol) ==> o.ideal.need == |t| && o.ideal.waste + 2 <= |t|)
  {
    hide FunctionOut, NameOut, TyOut, StringOut, Undo, StaticName, Readable, NameReadable, TyReadable, IdReadable,
         WfFunction, WfName, WfTy, IsIdentifier;
    match symbol {
      case Variable(name) => AgainWritten(name);
      case Static(f, id, _) =>
        StaticIs(f, id);
        AgainWritten(StaticName(f, id));
      case StringLiteral(f, _) => StringWritten(f);
      case TypeData(_, t) => TypeSymbolWritten(t);
      case ConstructionVtable(t, _, _) => TypeSymbolWritten(t);
      case NameData(_, name) => NameSymbolWritten(name);
      case _ => FunctionSymbolWritten(symbol);
    }
  }

  // ---------- suffixes ----------

  /** The suffix behind a symbol: clone suffixes are accepted and dropped, a version is kept. */
  lemma SuffixRead(g: Grammar, i: nat, suffix: Suffix)
    requires WfSuffix(suffix) && Reads(g, i, SuffixText(suffix)) && i + |SuffixText(suffix)| == |g.text|
    ensures i <= |g.text| && AtSuffix(g, i)
    ensures if suffix.Clones? then g.CloneSuffix(i) else !g.CloneSuffix(i) && g.At(i) == '@'
    ensures g.text[i..] == SuffixText(suffix)
  {
    hide Reads, CloneText, IsClone;
    ReadsSlice(g, i, SuffixText(suffix));
    match suffix {
      case Clones(clones) =>
        ClonesRead(g, i, clones);
        ClonesEnd(g, i, clones);
      case Version(version) =>
        Begins(g, i, "@" + version);
    }
  }

  lemma ClonesEnd(g: Grammar, i: nat, clones: seq<Clone>)
    requires i <= |g.text| && g.At(i) == (if clones == [] then '\0' else '.')
    requires i + |CloneText(clones)| == |g.text|
    ensures AtSuffix(g, i)
  {
    hide CloneText;
    if clones == [] { NoClones(); }
  }

  lemma NoClones()
    ensures CloneText([]) == ""
  {}

  lemma SymbolIs(g: Grammar, end: nat, o: Out)
    requires g.At2(0, '_', 'Z') && 2 <= end <= |g.text| && WriteEncoding(g, 2, INITIAL) == Step(Accept(end), o)
    ensures g.MangledName(0) == Accept(end)
    ensures g.CloneSuffix(end) ==> g.Recognised() && WriteSymbol(g) == o
    ensures !g.CloneSuffix(end) && g.At(end) == '@' ==> g.Recognised() && WriteSymbol(g) == Emit(o, g.text[end..])
  {
    hide WriteEncoding, Grammar.Encoding, Grammar.CloneSuffix, Emit, Wf;
    WritesEncoding(g, 2, INITIAL);
    assert WriteMangledName(g, 0, INITIAL) == Step(Accept(end), o);
  }

  lemma WholeText(g: Grammar, symbol: Symbol, suffix: Suffix, end: nat)
    requires g.text == Mangled(symbol, suffix) && end == 2 + |EncodingText(symbol)|
    ensures g.At2(0, '_', 'Z') && Reads(g, 2, EncodingText(symbol))
    ensures Reads(g, end, SuffixText(suffix)) && end + |SuffixText(suffix)| == |g.text|
  {
    hide EncodingText, SuffixText;
    assert g.text[0..|g.text|] == g.text;
    assert Reads(g, 0, ("_Z" + EncodingText(symbol)) + SuffixText(suffix));
    hide Reads;
    Split3(g, 0, "_Z", 2, EncodingText(symbol), end, SuffixText(suffix));
    ReadsSlice(g, 0, "_Z");
    assert g.text[1] == g.text[0..2][1];
  }

  lemma RoundTripOver(g: Grammar, symbol: Symbol, suffix: Suffix)
    requires WfSymbol(symbol) && WfSuffix(suffix) && Knows(g) && g.text == Mangled(symbol, suffix)
    ensures var o, t := WriteSymbol(g), SymbolReadable(symbol) + SuffixReadable(suffix);
      && g.Recognised() && !g.MangledName(0).Stray? && o.ideal.text == t && o.ideal.ended
      && (IsFunction(symbol) ==> o.ideal.need == |t| && o.ideal.waste + 2 <= |t|)
  {
    hide EncodingText, SuffixText, SymbolReadable, SymbolOut, WriteEncoding, WriteSymbol, Grammar.CloneSuffix,
         Grammar.Recognised, Grammar.MangledName, AtSuffix, Reads, Knows, WfSymbol, WfSuffix, Emit, Mangled;
    var end, o := 2 + |EncodingText(symbol)|, SymbolOut(INITIAL, symbol);
    WholeText(g, symbol, suffix, end);
    SuffixRead(g, end, suffix);
    EncodingRead(g, 2, symbol, end, INITIAL);
    SymbolIs(g, end, o);
    SymbolShown(symbol);
    if suffix.Clones? {
      assert SymbolReadable(symbol) + "" == SymbolReadable(symbol);
    } else {
      VersionShown(o, SymbolReadable(symbol), suffix);
    }
  }

  lemma VersionShown(o: Out, t: string, suffix: Suffix)
    requires suffix.Version? && o.append && o.ideal.text == t
    ensures SuffixText(suffix) == SuffixReadable(suffix)
    ensures var r := Emit(o, SuffixText(suffix)).ideal;
      && r.text == t + SuffixReadable(suffix) && r.ended && r.waste == o.ideal.waste
      && (o.ideal.need == |t| ==> r.need == |r.text|)
  {
    var v := SuffixText(suffix);
    assert "" + v == v;
    Fit.EmitText(o.ideal, v);
  }

  // ---------- mangled names are C strings ----------

  lemma IdIsCString(id: string)
    requires IsIdentifier(id)
    ensures '\0' !in IdText(id)
  {
    hide Decimal;
  }

  lemma IntIsCString(n: int)
    ensures '\0' !in IntText(n)
  {
    hide Decimal;
  }

  lemma PlaceIsCString(place: Place)
    requires WfPlace(place, true)
    ensures '\0' !in PlaceText(place)
  {
    hide Decimal;
  }

  lemma {:induction false} TyIsCString(t: Ty)
    requires WfTy(t)
    ensures '\0' !in TyText(t)
    decreases t
  {
    hide Decimal, IdText, IsBuiltin, IsIdentifier, PlaceText, WfPlace, TemplateText, TysText, NameText, WfTys,
         WfArgs, WfName;
    match t {
      case Builtin(code) => BuiltinIsLower(code);
      case Vendor(id) => IdIsCString(id);
      case VendorModified(id, of) => IdIsCString(id); TyIsCString(of);
      case Modified(_, of) => TyIsCString(of);
      case Expansion(of) => TyIsCString(of);
      case ArrayOf(n, of) => TyIsCString(of);
      case MemberOf(owner, of) => TyIsCString(owner); TyIsCString(of);
      case FunctionOf(_, params) => TysAreCStrings(params);
      case Placed(place, args) => AnyPlace(place); PlaceIsCString(place); ArgsAreCStrings(args);
      case Class(name) => NameIsCString(name);
    }
  }

  lemma AnyPlace(place: Place)
    requires WfPlace(place, false)
    ensures WfPlace(place, true)
  {}

  lemma {:induction false} TysAreCStrings(ts: seq<Ty>)
    requires WfTys(ts)
    ensures '\0' !in TysText(ts)
    decreases ts
  {
    hide TyText, WfTy;
    if ts != [] {
      TyIsCString(ts[0]);
      TysAreCStrings(ts[1..]);
    }
  }

  lemma LiteralIsCString(l: Literal)
    requires WfLiteral(l)
    ensures '\0' !in LiteralText(l)
  {
    hide IntText, IsBuiltin;
    BuiltinIsLower(l.code);
    if l.Int? { IntIsCString(l.n); }
  }

  lemma {:induction false} ExprIsCString(e: Expr)
    requires WfExpr(e)
    ensures '\0' !in ExprText(e)
    decreases e
  {
    hide Decimal, LiteralText, ExprsText, WfLiteral, WfExprs, Abbreviates;
    match e {
      case ParamValue(_) =>
      case Constant(l) => LiteralIsCString(l);
      case Operation(_, _, operands) => ExprsAreCStrings(operands);
    }
  }

  lemma {:induction false} ExprsAreCStrings(es: seq<Expr>)
    requires WfExprs(es)
    ensures '\0' !in ExprsText(es)
    decreases es
  {
    hide ExprText, WfExpr;
    if es != [] {
      ExprIsCString(es[0]);
      ExprsAreCStrings(es[1..]);
    }
  }

  lemma {:induction false} ArgIsCString(a: Arg)
    requires WfArg(a)
    ensures '\0' !in ArgText(a)
    decreases a
  {
    hide TyText, LiteralText, FunctionText, ArgsText, TemplateText, ExprText, WfTy, WfLiteral, WfFunction, WfArgs,
         WfExpr;
    match a {
      case TypeArg(t) => TyIsCString(t);
      case Value(l) => LiteralIsCString(l);
      case Address(f) => FunctionIsCString(f);
      case Pack(args) => ArgsAreCStrings(args);
      case Computed(e) => ExprIsCString(e);
    }
  }

  lemma {:induction false} ArgsAreCStrings(args: seq<Arg>)
    requires WfArgs(args)
    ensures '\0' !in ArgsText(args) && '\0' !in TemplateText(args)
    decreases args
  {
    hide ArgText, WfArg;
    if args != [] {
      ArgIsCString(args[0]);
      ArgsAreCStrings(args[1..]);
    }
  }

  lemma {:induction false} TagsAreCStrings(tags: seq<string>)
    requires forall tag :: tag in tags ==> IsIdentifier(tag)
    ensures '\0' !in TagsText(tags)
    decreases |tags|
  {
    hide IdText, IsIdentifier;
    if tags != [] {
      assert forall tag :: tag in tags[1..] ==> tag in tags;
      IdIsCString(tags[0]);
      TagsAreCStrings(tags[1..]);
    }
  }

  lemma {:induction false} ItemIsCString(item: Item)
    requires WfItem(item)
    ensures '\0' !in ItemText(item)
    decreases item
  {
    hide PlaceText, TagsText, TemplateText, IdText, IsIdentifier, WfPlace, WfArgs;
    ArgsAreCStrings(item.args);
    match item {
      case Identifier(_, id, tags, _) => IdIsCString(id); TagsAreCStrings(tags);
      case Stand(place, _) => PlaceIsCString(place);
    }
  }

  lemma {:induction false} ItemsAreCStrings(items: seq<Item>)
    requires WfItems(items)
    ensures '\0' !in ItemsText(items)
    decreases items
  {
    hide ItemText, WfItem;
    if items != [] {
      ItemIsCString(items[0]);
      ItemsAreCStrings(items[1..]);
    }
  }

  lemma {:induction false} KindIsCString(kind: Kind, last: string)
    requires WfKind(kind, last)
    ensures '\0' !in KindCode(kind)
    decreases kind
  {
    hide TyText, IdText, WfTy, IsIdentifier, IdReadable, Abbreviates;
    if kind.Cast? { TyIsCString(kind.t); }
    if kind.VendorOperator? { IdIsCString(kind.id); }
  }

  lemma {:induction false} NameIsCString(name: Name)
    requires WfName(name)
    ensures '\0' !in NameText(name)
    decreases name
  {
    hide ItemsText, ItemText, KindCode, FunctionText, Abbreviates, WfItems, WfItem, WfKind, WfFunction;
    match name {
      case Nested(_, items, kind) => ItemsAreCStrings(items); KindIsCString(kind, OwnName(items[|items| - 1]));
      case Unscoped(_, item) => ItemIsCString(item);
      case FreeOperator(_, _) =>
      case Local(f, entity) => FunctionIsCString(f); NameIsCString(entity);
    }
  }

  lemma {:induction false} FunctionIsCString(f: Function)
    requires WfFunction(f)
    ensures '\0' !in FunctionText(f)
    decreases f
  {
    hide NameText, TysText, WfName, WfTys;
    NameIsCString(f.name);
    TysAreCStrings(f.params);
  }

  lemma OffsetIsCString(offset: Offset)
    ensures '\0' !in OffsetText(offset)
  {
    hide IntText;
    IntIsCString(offset.n);
    if offset.Virtual? { IntIsCString(offset.m); }
  }

  lemma EncodingIsCString(symbol: Symbol)
    requires WfSymbol(symbol)
    ensures '\0' !in EncodingText(symbol)
  {
    hide FunctionText, NameText, TyText, IdText, IntText, OffsetText, Decimal, WfFunction, WfName, WfTy,
         IsIdentifier;
    match symbol {
      case Callable(f) => FunctionIsCString(f);
      case Variable(name) => NameIsCString(name);
      case Static(f, id, _) => FunctionIsCString(f); IdIsCString(id);
      case StringLiteral(f, _) => FunctionIsCString(f);
      case TypeData(_, t) => TyIsCString(t);
      case ConstructionVtable(t, n, base) => TyIsCString(t); IntIsCString(n); TyIsCString(base);
      case NameData(_, name) => NameIsCString(name);
      case Alias(f) => FunctionIsCString(f);
      case Thunk(offset, f) => OffsetIsCString(offset); FunctionIsCString(f);
      case CovariantThunk(a, b, f) => OffsetIsCString(a); OffsetIsCString(b); FunctionIsCString(f);
      case GnuThunk(_, offset, f) => OffsetIsCString(offset); FunctionIsCString(f);
    }
  }

  lemma {:induction false} ClonesHaveNoNul(clones: seq<Clone>)
    requires forall c :: c in clones ==> IsClone(c)
    ensures '\0' !in CloneText(clones)
    decreases |clones|
  {
    if clones != [] {
      assert IsClone(clones[0]);
      ClonesHaveNoNul(clones[1..]);
    }
  }

  lemma MangledIsCString(symbol: Symbol, suffix: Suffix)
    requires WfSymbol(symbol) && WfSuffix(suffix)
    ensures '\0' !in Mangled(symbol, suffix)
  {
    hide EncodingText, CloneText, WfSymbol, IsClone;
    EncodingIsCString(symbol);
    if suffix.Clones? { ClonesHaveNoNul(suffix.clones); }
  }

  // ---------- the main results ----------

  /** Demangling a mangled symbol gives its readable form, with the version if there is one.  For a function,
      what is abandoned on the way is shorter than that, so that any buffer with room for it and its NUL is
      enough. */
  lemma RoundTrip(symbol: Symbol, suffix: Suffix)
    requires WfSymbol(symbol) && WfSuffix(suffix)
    ensures '\0' !in Mangled(symbol, suffix)
    ensures var g, t := Itanium(Mangled(symbol, suffix)), SymbolReadable(symbol) + SuffixReadable(suffix);
      var o := WriteSymbol(g);
      && g.Recognised() && !g.MangledName(0).Stray? && o.ideal.text == t && o.ideal.ended
      && (IsFunction(symbol) ==> o.ideal.need == |t| && o.ideal.waste + 2 <= |t|)
  {
    hide Knows, Itanium, Mangled, SymbolReadable, WriteSymbol, Grammar.MangledName, Grammar.Recognised, WfSymbol,
         WfSuffix;
    MangledIsCString(symbol, suffix);
    ItaniumKnows(Mangled(symbol, suffix));
    RoundTripOver(Itanium(Mangled(symbol, suffix)), symbol, suffix);
  }

  /** The round trip through the buffer.  A function is demangled exactly when its readable form and its NUL
      fit; for any other symbol two more cells are enough.  Then the buffer holds them. */
  method DemangleMangled(symbol: Symbol, suffix: Suffix, out: array<char>) returns (ok: bool)
    requires WfSymbol(symbol) && WfSuffix(suffix)
    modifies out
    ensures var t := SymbolReadable(symbol) + SuffixReadable(suffix);
      && (IsFunction(symbol) ==> (ok <==> |t| < out.Length))
      && (|t| + 2 < out.Length ==> ok)
      && (ok && (IsFunction(symbol) || |t| + 2 < out.Length) ==> out[..|t|] == t && out[|t|] == '\0')
  {
    hide Itanium, Mangled, SymbolReadable, WfSymbol, WfSuffix, WriteSymbol, Play, Grammar.MangledName,
         Grammar.Recognised, Ends.EncodingSays, Ends.HasVersion;
    RoundTrip(symbol, suffix);
    ok := Demangle(Mangled(symbol, suffix), out);
  }
}
