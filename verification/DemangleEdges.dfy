/** Inputs on which the demangler goes back, or on which it succeeds without writing anything. */
module DemangleEdges {
  import opened Lists
  import opened MangledText
  import opened DemangleGrammar
  import opened DemangleBuffer
  import opened DemangleOutput
  import opened DemangleEnds
  import opened DemangleTables
  import opened Demangling
  import Reading = DemangleReading

  /** A negative length can put the cursor back to where the name began, so that the loop over the
      prefix never gets past it.  A text without negative numbers never does this: see the contract
      of Grammar.MangledName. */
  lemma StrayExample(g: Grammar)
    requires g.text == "_ZNn2E"
    ensures
      && g.Number(3) == Accept(5) && g.NumberValue(3) == -2 && g.Number(3).end + g.NumberValue(3) == 3
      && g.SourceName(3).Stray? && g.Prefix(3, false).Stray? && g.MangledName(0).Stray?
  {
    assert g.RunEnd(5, Digits) == 5 && g.RunEnd(4, Digits) == 5;
    assert g.text[4..5] == "2" && "2"[..0] == "";
    assert DecimalValue("2") == 2;
    assert g.SourceName(3).Stray?;
    assert g.OperatorName(3) == Reject;
    assert g.UnqualifiedName(3).Stray?;
    assert g.UnscopedName(3).Stray?;
    assert g.PrefixItem(3).Stray?;
    assert g.NestedName(2).Stray?;
    assert g.Name(2).Stray?;
    assert g.FunctionEncoding(2).Stray?;
    assert g.Encoding(2).Stray?;
  }

  /** A literal of type __int128, whose code is `n`, is taken for something local with a negative length. */
  lemma WideLiteral(g: Grammar)
    requires g.text == "_Z1fILn5EEvv" && Reading.Knows(g)
    ensures g.Number(6) == Accept(8) && g.NumberValue(6) == -5 && g.LocalSourceName(5).Stray?
    ensures g.TemplateArg(5).Stray? && g.MangledName(0).Stray?
  {
    hide Reading.Knows, FindChar;
    assert g.text[7..8] == "5" && "5"[..0] == "";
    assert g.RunEnd(8, Digits) == 8 && DecimalValue("5") == 5;
    assert g.SourceName(6).Stray?;
    WideArgument(g, 5);
    assert g.text[2..3] == "1" && "1"[..0] == "" && g.RunEnd(3, Digits) == 3 && DecimalValue("1") == 1;
    assert g.SourceName(2) == Accept(4) && g.AbiTags(4) == Reject;
    hide Grammar.TemplateArg, Grammar.SourceName;
    assert g.UnqualifiedName(2) == Accept(4) && g.TemplateArgs(4).Stray?;
    NameIsWide(g, 2, 4);
  }

  lemma WideArgument(g: Grammar, i: nat)
    requires Reading.Knows(g) && i < |g.text| && g.text[i] == 'L' && g.SourceName(i + 1).Stray?
    ensures g.TemplateArg(i).Stray?
  {
    hide Reading.Knows, Grammar.SourceName, FindChar;
    Reading.NoBuiltin(g, i);
    Reading.NotModified(g, i, INITIAL);
    SignIsNoName(g, i);
    assert g.LocalSourceName(i).Stray? && g.UnqualifiedName(i).Stray?;
    hide Grammar.UnqualifiedName;
    assert g.UnscopedName(i).Stray?;
    assert g.TemplatedName(i).Stray?;
    assert g.Name(i).Stray?;
    hide Grammar.Name, Grammar.ModifiedType;
    assert g.Type(i).Stray?;
  }

  lemma NameIsWide(g: Grammar, i: nat, k: nat)
    requires i <= |g.text| && g.UnqualifiedName(i) == Accept(k) && k <= |g.text| && g.At(i) !in "NZ"
    requires g.TemplateArgs(k).Stray?
    ensures g.Encoding(i).Stray?
  {
    hide Grammar.UnqualifiedName, Grammar.TemplateArgs;
    assert g.UnscopedName(i) == Accept(k);
    assert g.TemplatedName(i).Stray?;
    assert g.Name(i).Stray?;
    hide Grammar.Name;
    assert g.FunctionEncoding(i).Stray?;
  }

  lemma SignIsNoName(g: Grammar, i: nat)
    requires i <= |g.text| && !IsDigit(g.At(i)) && g.At(i) != 'n'
    ensures g.SourceName(i) == Reject
  {}

  /** One round of the loop of ParsePrefix() on that text, for any state of the output: the same calls in
      the same order, down to the source name.  The name is read, nothing is written for it, and the cursor
      is where it was, with the same append flag. */
  method StrayRound(d: Demangler)
    requires d.Valid() && d.g.text == "_ZNn2E" && d.st.cur == 3
    modifies d, d.buf
    ensures d.Valid() && d.st.cur == 3 && d.st.append == old(d.st.append)
    ensures d.o == Deepen(Separate(old(d.o)))
  {
    StrayExample(d.g);
    assert d.g.AbiTags(3) == Reject;
    d.MaybeAppendSeparator();
    var read := d.ParseTemplateParam();
    if !read { read := d.ParseSubstitution(); }
    if !read { read := d.ParseOperatorName(); }
    if !read { read := d.ParseCtorDtorName(); }
    assert !read;
    var length;
    read, length := d.ParseNumber();
    assert read && length == -2;
    read := d.ParseIdentifier(length);
    assert read;
    read := d.ParseAbiTags();
    d.MaybeIncreaseNestLevel();
  }

  /** However often the loop goes around, it has not got past the name. */
  method StrayRounds(d: Demangler, n: nat)
    requires d.Valid() && d.g.text == "_ZNn2E" && d.st.cur == 3
    modifies d, d.buf
    ensures d.Valid() && d.st.cur == 3 && d.st.append == old(d.st.append)
  {
    for k := 0 to n
      invariant d.Valid() && d.st.cur == 3 && d.st.append == old(d.st.append)
    {
      StrayRound(d);
    }
  }

  /** A length that leads back need not keep the parse from ending: here the character that the cursor comes
      back to is then read as a parameter of the builtin type `n`. */
  lemma StrayMayEnd(g: Grammar)
    requires g.text == "_Zn2" && FindChar(g.builtins, 0, 'n').Some? && FindChar(g.builtins, 0, '2').None?
    ensures g.MangledName(0).Stray? && g.Number(2).end + g.NumberValue(2) == 2
    ensures g.BareFunctionType(2) == Accept(3)
  {
    assert g.RunEnd(4, Digits) == 4 && g.RunEnd(3, Digits) == 4;
    assert g.text[3..4] == "2" && "2"[..0] == "";
    assert DecimalValue("2") == 2;
    StrayName(g);
    BuiltinOnly(g);
  }

  lemma StrayName(g: Grammar)
    requires g.text == "_Zn2" && g.Number(2) == Accept(4) && g.NumberValue(2) == -2
    ensures g.MangledName(0).Stray?
  {
    assert g.SourceName(2).Stray?;
    assert g.OperatorName(2) == Reject;
    assert g.UnqualifiedName(2).Stray?;
    assert g.UnscopedName(2).Stray?;
    assert g.TemplatedName(2).Stray?;
    assert g.Name(2).Stray?;
    assert g.FunctionEncoding(2).Stray?;
    assert g.Encoding(2).Stray?;
  }

  lemma BuiltinOnly(g: Grammar)
    requires g.text == "_Zn2" && FindChar(g.builtins, 0, 'n').Some? && FindChar(g.builtins, 0, '2').None?
    requires g.Number(3) == Accept(4) && g.NumberValue(3) == 2
    ensures g.BareFunctionType(2) == Accept(3)
  {
    assert g.ModifiedType(2) == Reject;
    assert g.Type(2) == Accept(3);
    assert g.SourceName(3) == Reject;
    assert g.OperatorName(3) == Reject;
    assert g.UnqualifiedName(3) == Reject;
    assert g.UnscopedName(3) == Reject;
    assert g.TemplatedName(3) == Reject;
    assert g.Name(3) == Reject;
    assert g.ModifiedType(3) == Reject;
    assert g.Type(3) == Reject;
  }

  /** The symbols of an empty name. */
  predicate EmptyName(mangled: string) { mangled == "_Z0" || mangled == "_ZNE" || mangled == "_ZC1" }

  lemma EmptyUnscoped(g: Grammar)
    requires |g.text| > 2 && g.At(2) !in "NZS" && g.UnqualifiedName(2) == Accept(|g.text|) && !UnqualifiedSays(g, 2)
    ensures g.Name(2) == Accept(|g.text|) && !NameSays(g, 2)
  {
    hide Grammar.UnqualifiedName, UnqualifiedSays;
    assert g.UnscopedName(2) == Accept(|g.text|);
    assert g.UnscopedTemplateName(2) == Accept(|g.text|);
    assert g.TemplateArgs(|g.text|) == Reject;
    assert g.TemplatedName(2) == Reject;
  }

  lemma EmptySource(g: Grammar)
    requires g.text == "_Z0"
    ensures g.Name(2) == Accept(3) && !NameSays(g, 2)
  {
    assert g.RunEnd(3, Digits) == 3 && g.RunEnd(2, Digits) == 3;
    assert g.text[2..3] == "0" && "0"[..0] == "";
    assert g.NumberValue(2) == 0;
    assert g.SourceName(2) == Accept(3);
    assert g.OperatorName(2) == Reject;
    assert g.UnqualifiedName(2) == Accept(3);
    EmptyUnscoped(g);
  }

  lemma EmptyNested(g: Grammar)
    requires g.text == "_ZNE"
    ensures g.Name(2) == Accept(4) && !NameSays(g, 2)
  {
    assert g.UnqualifiedName(3) == Reject;
    assert g.PrefixItem(3) == Reject;
    assert g.Prefix(3, false) == Accept(3);
    assert g.NestedName(2) == Accept(4);
  }

  lemma EmptyConstructor(g: Grammar)
    requires g.text == "_ZC1"
    ensures g.Name(2) == Accept(4) && !NameSays(g, 2)
  {
    assert g.OperatorName(2) == Reject;
    assert g.UnqualifiedName(2) == Accept(4);
    EmptyUnscoped(g);
  }

  lemma EmptyNames(g: Grammar)
    requires EmptyName(g.text)
    ensures g.Recognised() && PlainName(g) && !EncodingSays(g, 2) && !HasVersion(g)
  {
    if g.text == "_Z0" { EmptySource(g); } else if g.text == "_ZNE" { EmptyNested(g); } else { EmptyConstructor(g); }
    hide Grammar.Name, NameSays;
    Reading.NoTypeHere(g, |g.text|);
    assert g.FunctionEncoding(2) == Reject;
    assert g.Encoding(2) == Accept(|g.text|);
  }

  /** They are demangled without writing anything, not even a NUL. */
  method EmptyNameExample(mangled: CString, out: array<char>) returns (ok: bool)
    requires EmptyName(mangled)
    modifies out
    ensures ok && out[..] == old(out[..])
  {
    var g := Itanium(mangled);
    EmptyNames(g);
    PlainNameEndsExactlyWhen(g);
    hide EmptyName, PlainName, EncodingSays, HasVersion, Grammar.Recognised, WriteSymbol, Play;
    ok := Demangle(mangled, out);
  }
}
