/** What the grammar makes of mangled types and names: it reads each to its end, and no further. */
module DemangleReading {
  import opened Lists
  import opened MangledText
  import opened DemangleGrammar
  import opened DemangleOutput
  import opened DemangleTables
  import opened Mangling

  // ---------- reading runs ----------

  /** The text at position i starts with s. */
  ghost predicate Reads(g: Grammar, i: nat, s: string)
  {
    i + |s| <= |g.text| && g.text[i..i + |s|] == s
  }

  lemma ReadsBoth(g: Grammar, i: nat, s: string, t: string)
    requires Reads(g, i, s + t)
    ensures Reads(g, i, s) && Reads(g, i + |s|, t)
    ensures s != "" ==> g.At(i) == s[0]
    ensures t != "" ==> g.At(i + |s|) == t[0]
  {
    var u := g.text[i..i + |s + t|];
    assert g.text[i..i + |s|] == u[..|s|] == s;
    assert g.text[i + |s|..i + |s| + |t|] == u[|s|..] == t;
    assert s != "" ==> u[0] == g.text[i];
    assert t != "" ==> u[|s|] == g.text[i + |s|];
  }

  /** The parts of a text, and where they begin. */
  lemma Split(g: Grammar, i: nat, s: string, j: nat, t: string)
    requires Reads(g, i, s + t) && j == i + |s|
    ensures Reads(g, i, s) && Reads(g, j, t) && j + |t| <= |g.text|
    ensures s != "" ==> g.At(i) == s[0]
    ensures t != "" ==> g.At(j) == t[0]
  {
    ReadsBoth(g, i, s, t);
  }

  lemma Split3(g: Grammar, i: nat, s: string, j: nat, t: string, k: nat, u: string)
    requires Reads(g, i, (s + t) + u) && j == i + |s| && k == j + |t|
    ensures Reads(g, i, s) && Reads(g, j, t) && Reads(g, k, u) && k + |u| <= |g.text|
    ensures s != "" ==> g.At(i) == s[0]
    ensures t != "" ==> g.At(j) == t[0]
    ensures u != "" ==> g.At(k) == u[0]
  {
    hide Reads;
    Split(g, i, s + t, k, u);
    Split(g, i, s, j, t);
  }

  /** The first character of a text that is read. */
  lemma Begins(g: Grammar, i: nat, s: string)
    requires Reads(g, i, s) && s != ""
    ensures i < |g.text| && g.At(i) == g.text[i] == s[0]
  {
    assert g.text[i] == g.text[i..i + |s|][0];
  }

  lemma ReadsSlice(g: Grammar, i: nat, s: string)
    requires Reads(g, i, s)
    ensures i + |s| <= |g.text| && g.text[i..i + |s|] == s
  {}

  lemma {:induction false} RunIs(g: Grammar, i: nat, kind: CharKind, run: string)
    requires Reads(g, i, run) && !kind.Has(g.At(i + |run|))
    requires forall k :: 0 <= k < |run| ==> kind.Has(run[k])
    ensures g.RunEnd(i, kind) == i + |run|
    decreases |run|
  {
    if run != "" {
      assert g.text[i] == g.text[i..i + |run|][0] == run[0];
      assert g.text[i + 1..i + |run|] == g.text[i..i + |run|][1..] == run[1..];
      RunIs(g, i + 1, kind, run[1..]);
    }
  }

  /** `.` and a run of at least one character. */
  lemma DotRun(g: Grammar, i: nat, kind: CharKind, run: string)
    requires Reads(g, i, "." + run) && !kind.Has(g.At(i + 1 + |run|)) && run != ""
    requires forall k :: 0 <= k < |run| ==> kind.Has(run[k])
    ensures g.At(i) == '.' && kind.Has(g.At(i + 1)) && g.RunEnd(i + 2, kind) == i + 1 + |run|
  {
    ReadsBoth(g, i, ".", run);
    assert run == [run[0]] + run[1..];
    ReadsBoth(g, i + 1, [run[0]], run[1..]);
    RunIs(g, i + 2, kind, run[1..]);
  }

  lemma CloneRead(g: Grammar, i: nat, c: Clone)
    requires IsClone(c) && Reads(g, i, ("." + c.letters) + ("." + c.digits))
    requires !IsDigit(g.At(i + |("." + c.letters) + ("." + c.digits)|))
    ensures g.At(i) == '.'
    ensures g.CloneSuffix(i) == g.CloneSuffix(i + |("." + c.letters) + ("." + c.digits)|)
  {
    hide Grammar.CloneSuffix;
    ReadsBoth(g, i, "." + c.letters, "." + c.digits);
    DotRun(g, i, Letters, c.letters);
    var a := i + 1 + |c.letters|;
    DotRun(g, a, Digits, c.digits);
    CloneSuffixStep(g, i, a, a + 1 + |c.digits|);
  }

  lemma CloneSuffixEnd(g: Grammar, i: nat)
    requires i == |g.text|
    ensures g.CloneSuffix(i) && g.At(i) == '\0'
  {}

  lemma CloneSuffixStep(g: Grammar, i: nat, a: nat, d: nat)
    requires i + 1 < |g.text| && g.At(i) == '.' && IsAlpha(g.At(i + 1)) && g.RunEnd(i + 2, Letters) == a
    requires g.At(a) == '.' && IsDigit(g.At(a + 1)) && g.RunEnd(a + 2, Digits) == d
    ensures g.CloneSuffix(i) == g.CloneSuffix(d)
  {}

  lemma {:induction false} ClonesRead(g: Grammar, i: nat, clones: seq<Clone>)
    requires Reads(g, i, CloneText(clones)) && i + |CloneText(clones)| == |g.text|
    requires forall c :: c in clones ==> IsClone(c)
    ensures g.CloneSuffix(i)
    ensures g.At(i) == if clones == [] then '\0' else '.'
    decreases |clones|
  {
    hide IsClone, Grammar.CloneSuffix;
    if clones == [] {
      CloneSuffixEnd(g, i);
    } else {
      var c, rest := clones[0], CloneText(clones[1..]);
      var t := ("." + c.letters) + ("." + c.digits);
      assert CloneText(clones) == t + rest;
      ReadsBoth(g, i, t, rest);
      assert forall d :: d in clones[1..] ==> d in clones;
      ClonesRead(g, i + |t|, clones[1..]);
      CloneRead(g, i, c);
    }
  }

  // ---------- numbers and identifiers ----------

  lemma NumberRead(g: Grammar, i: nat, n: nat)
    requires Reads(g, i, Decimal(n)) && !IsDigit(g.At(i + |Decimal(n)|))
    ensures IsDigit(g.At(i))
    ensures g.Number(i) == Accept(i + |Decimal(n)|) && g.NumberValue(i) == n
  {
    hide Decimal, Reads;
    var ds := Decimal(n);
    assert ds == [ds[0]] + ds[1..];
    ReadsBoth(g, i, [ds[0]], ds[1..]);
    RunIs(g, i, Digits, ds);
    assert g.text[i..i + |ds|] == ds by { ReadsSlice(g, i, ds); }
  }

  lemma SignedRead(g: Grammar, i: nat, n: int)
    requires Reads(g, i, IntText(n)) && !IsDigit(g.At(i + |IntText(n)|))
    ensures g.Number(i) == Accept(i + |IntText(n)|) && (IsDigit(g.At(i)) || g.At(i) == 'n')
  {
    hide Reads, Decimal;
    if n < 0 {
      var ds := Decimal(-n);
      ReadsBoth(g, i, "n", ds);
      assert ds == [ds[0]] + ds[1..];
      RunIs(g, i + 1, Digits, ds);
    } else {
      NumberRead(g, i, n);
    }
  }

  lemma SourceNameRead(g: Grammar, i: nat, id: string, o: Out)
    requires Reads(g, i, IdText(id)) && IsIdentifier(id)
    ensures IsDigit(g.At(i)) && g.SourceName(i) == Accept(i + |IdText(id)|)
    ensures WriteSourceName(g, i, o) == Step(Accept(i + |IdText(id)|), Emit(o, Shown(id)))
  {
    hide Emit, Shown, Decimal, Grammar.Number, Grammar.NumberValue;
    ReadsBoth(g, i, Decimal(|id|), id);
    NumberRead(g, i, |id|);
  }

  lemma {:induction false} TagsRead(g: Grammar, i: nat, tags: seq<string>)
    requires Reads(g, i, TagsText(tags)) && g.At(i + |TagsText(tags)|) != 'B'
    requires forall tag :: tag in tags ==> IsIdentifier(tag)
    ensures g.MoreAbiTags(i) == Accept(i + |TagsText(tags)|)
    ensures g.AbiTags(i) == if tags == [] then Reject else Accept(i + |TagsText(tags)|)
    decreases |tags|
  {
    hide Reads, IsIdentifier, IdText, Grammar.SourceName, Grammar.MoreAbiTags, Grammar.AbiTags;
    if tags == [] {
      ReadsSlice(g, i, TagsText(tags));
      NoTags(g, i);
    } else {
      var rest, e := tags[1..], i + 1 + |IdText(tags[0])|;
      ReadsBoth(g, i, "B" + IdText(tags[0]), TagsText(rest));
      assert tags[0] in tags && forall tag :: tag in rest ==> tag in tags;
      TagStep(g, i, tags[0]);
      TagsRead(g, e, rest);
    }
  }

  lemma TagStep(g: Grammar, i: nat, tag: string)
    requires Reads(g, i, "B" + IdText(tag)) && IsIdentifier(tag)
    ensures var e := i + 1 + |IdText(tag)|;
      e <= |g.text| && g.MoreAbiTags(i) == g.MoreAbiTags(e) && g.AbiTags(i) == g.MoreAbiTags(e)
  {
    hide Reads, IsIdentifier, IdText, Grammar.SourceName, WriteSourceName, Emit, Shown;
    Split(g, i, "B", i + 1, IdText(tag));
    SourceNameRead(g, i + 1, tag, INITIAL);
  }

  lemma NoTags(g: Grammar, i: nat)
    requires i <= |g.text| && g.At(i) != 'B'
    ensures g.MoreAbiTags(i) == Accept(i) && g.AbiTags(i) == Reject
  {}

  // ---------- what the tables have ----------

  /** The tables of the grammar have the entries of the ABI. */
  ghost predicate Knows(g: Grammar)
  {
    && (forall c :: FindChar(g.builtins, 0, c).Some? <==> IsBuiltin(c))
    && (forall c :: c in "tabsiod" ==> FindChar(g.substitutions, 1, c).Some?)
    && g.operators == OPERATORS && g.builtins == BUILTIN_TYPES && g.substitutions == SUBSTITUTIONS
  }

  lemma BuiltinCodes(c: char)
    ensures FindChar(BUILTIN_TYPES, 0, c).Some? <==> IsBuiltin(c)
  {
    hide FindChar;
    var codes := "vwbcahstijlmxynofdegz";
    assert |BUILTIN_TYPES| == |codes| == 21;
    assert forall k :: 0 <= k < 21 ==> BUILTIN_TYPES[k].At(0) == codes[k];
    if IsBuiltin(c) {
      var k :| 0 <= k < 21 && codes[k] == c;
      assert BUILTIN_TYPES[k] in BUILTIN_TYPES;
    }
  }

  lemma BuiltinIsLower(c: char)
    ensures IsBuiltin(c) ==> IsLower(c) && c != 'r' && c != 'u'
  {}

  lemma SubstitutionCodes(c: char)
    requires c in "tabsiod"
    ensures FindChar(SUBSTITUTIONS, 1, c).Some?
  {
    hide FindChar;
    assert |SUBSTITUTIONS| == 7;
    assert forall k :: 0 <= k < 7 ==> SUBSTITUTIONS[k].At(1) == "tabsiod"[k];
    var k :| 0 <= k < 7 && "tabsiod"[k] == c;
    assert SUBSTITUTIONS[k] in SUBSTITUTIONS;
  }

  lemma ItaniumKnows(mangled: CString)
    ensures Knows(Itanium(mangled)) && Itanium(mangled).text == mangled
  {
    hide FindChar, IsBuiltin;
    forall c ensures FindChar(BUILTIN_TYPES, 0, c).Some? <==> IsBuiltin(c) { BuiltinCodes(c); }
    forall c | c in "tabsiod" ensures FindChar(SUBSTITUTIONS, 1, c).Some? { SubstitutionCodes(c); }
  }

  /** What is no lower-case letter is not the code of a builtin type; nor is `u`. */
  lemma NoBuiltin(g: Grammar, i: nat)
    requires Knows(g) && (!IsLower(g.At(i)) || g.At(i) == 'u')
    ensures FindChar(g.builtins, 0, g.At(i)).None?
  {
    BuiltinIsLower(g.At(i));
    hide FindChar, IsBuiltin;
  }

  lemma StandardKnown(g: Grammar, code: char)
    requires Knows(g) && code in "tabsiod"
    ensures FindChar(g.substitutions, 1, code) == Some(StandardName(code))
  {
    hide FindChar, IsBuiltin;
  }

  // ---------- what does not begin here ----------

  /** No <unqualified-name> begins with this character. */
  predicate NoName(c: char) { !IsLower(c) && !IsDigit(c) && c !in "CDL" }

  lemma NoUnqualified(g: Grammar, i: nat, o: Out)
    requires i <= |g.text| && NoName(g.At(i))
    ensures WriteUnqualifiedName(g, i, o) == Step(Reject, o)
  {
    assert WriteOperatorName(g, i, o) == Step(Reject, o);
  }

  lemma NoUnscoped(g: Grammar, i: nat, o: Out)
    requires i <= |g.text| && NoName(g.At(i)) && g.At(i) != 'S'
    ensures WriteUnscopedName(g, i, o) == Step(Reject, o)
  {
    hide WriteUnqualifiedName, Grammar.UnqualifiedName;
    NoUnqualified(g, i, o);
  }

  lemma NoNameHere(g: Grammar, i: nat, o: Out)
    requires i <= |g.text| && NoName(g.At(i)) && g.At(i) !in "NZS"
    ensures WriteName(g, i, o) == Step(Reject, o) && WriteUnscopedName(g, i, o) == Step(Reject, o)
  {
    hide WriteUnscopedName, Grammar.UnscopedName, Writes, Keeps;
    NoUnscoped(g, i, o);
    assert WriteUnscopedTemplateName(g, i, o) == Step(Reject, o);
    UndoNothing(o);
    assert WriteTemplatedName(g, i, o) == Step(Reject, o);
  }

  /** A state to which nothing has happened is undone to itself. */
  lemma UndoNothing(o: Out)
    ensures Undo(o, o) == o && Closing(o, Step(Reject, o)) == Step(Reject, o)
  {}

  lemma NoTemplateArgs(g: Grammar, i: nat)
    requires i <= |g.text| && g.At(i) != 'I'
    ensures g.TemplateArgs(i) == Reject
  {}

  lemma NothingAtAll(g: Grammar, i: nat, o: Out)
    requires i <= |g.text| && g.At(i) in "IE"
    ensures WritePrefixItem(g, i, o) == Step(Reject, o)
  {
    hide WriteUnscopedName, Grammar.UnscopedName, Writes, Keeps;
    NoUnscoped(g, i, o);
  }

  lemma NothingAtE(g: Grammar, i: nat, has: bool, o: Out)
    requires i < |g.text| && g.text[i] == 'E'
    ensures WritePrefix(g, i, has, o) == Step(Accept(i), Cancel(Separate(o)))
  {
    var s := Separate(o);
    NothingAtAll(g, i, s);
    NoTemplateArgs(g, i);
    hide Emit, Separate, Cancel, WritePrefixItem, Grammar.PrefixItem, Grammar.TemplateArgs, Writes, Keeps;
  }

  lemma NotModified(g: Grammar, i: nat, o: Out)
    requires i <= |g.text| && g.At(i) !in "rVKOPRCGDU"
    ensures WriteModifiedType(g, i, o) == Step(Reject, o)
  {
    hide Writes, Keeps;
  }

  /** Where a list of types may end. */
  predicate ListEnds(g: Grammar, i: nat) { i == |g.text| || (i < |g.text| && g.text[i] in ".E@") }

  /** No type begins with this character, nor does the end of the text. */
  predicate Alien(c: char) { c == '\0' || c in ".E@X_" }

  lemma AlienIs(c: char)
    requires Alien(c)
    ensures NoName(c) && c !in "NZS" && !IsLower(c) && c !in "VKOPRCGDUF" && c !in "AMST" && c !in "IJL"
  {}

  lemma NoTypeHere(g: Grammar, i: nat)
    requires (Knows(g) || i == |g.text|) && i <= |g.text| && Alien(g.At(i))
    ensures g.Type(i) == Reject
  {
    AlienIs(g.At(i));
    hide Knows, Alien, NoName, WriteName, WriteType, Grammar.Type, TypeTail, FindChar;
    NoPlainType(g, i, INITIAL);
    NoNameHere(g, i, INITIAL);
    NoTail(g, i, INITIAL);
    assert WriteType(g, i, INITIAL).at == Reject;
  }

  lemma NoMoreTypes(g: Grammar, i: nat)
    requires ListEnds(g, i) && Knows(g)
    ensures g.MoreTypes(i) == Accept(i) && g.BareFunctionType(i) == Reject && g.MoreTemplateArgs(i) == Accept(i)
  {
    hide Grammar.Type, Knows;
    AlienIs(g.At(i));
    NoTypeHere(g, i);
    assert g.TemplateArg(i) == Reject;
  }

  // ---------- types ----------

  /** What may follow a type or name without being taken for a part of it. */
  predicate Stops(c: char) { c !in "BI_" }

  /** With what a type begins: never with something that an earlier one could be continued with. */
  lemma TyBegins(t: Ty)
    requires WfTy(t)
    ensures TyText(t) != "" && Stops(TyText(t)[0]) && TyText(t)[0] !in "EYJX." && TyText(t)[0] != '\0'
    ensures TyText(t)[0] in "rVK" ==> t.Modified? && t.modifier == TyText(t)[0]
  {
    hide IsBuiltin, Decimal, IdText, NameText, TysText, TemplateText, WfTys, WfArgs, WfName, ParamText, WfPlace;
    match t {
      case Builtin(code) => BuiltinIsLower(code);
      case Class(name) => NameBegins(name);
      case Placed(place, args) => assert TyText(t)[0] == if place.Param? then 'T' else 'S' by { ParamStarts(place); }
      case _ =>
    }
  }

  lemma ParamStarts(place: Place)
    ensures PlaceText(place) != "" && PlaceText(place)[0] == if place.Param? then 'T' else 'S'
  {
    hide Decimal;
  }

  lemma NameBegins(name: Name)
    requires WfName(name)
    ensures NameText(name) != "" && Stops(NameText(name)[0]) && NameText(name)[0] != '\0'
    ensures !name.FreeOperator? ==> NameText(name)[0] !in "EYJXrVK."
  {
    hide Stops;
    NameStarts(name);
    var c := NameText(name)[0];
    assert IsLower(c) || IsDigit(c) || c in "LNSZ" ==> Stops(c) by { StopsAt(c); }
  }

  lemma StopsAt(c: char)
    requires IsLower(c) || IsDigit(c) || c in "LNSZ"
    ensures Stops(c)
  {}

  lemma HeadStarts(internal: bool, id: string, tags: seq<string>)
    ensures HeadText(internal, id, tags) != ""
    ensures var c := HeadText(internal, id, tags)[0]; if internal then c == 'L' else IsDigit(c)
  {
    hide Decimal, TagsText;
    assert HeadText(internal, id, tags)[0] == if internal then 'L' else Decimal(|id|)[0];
  }

  lemma NameStarts(name: Name)
    requires WfName(name)
    ensures NameText(name) != ""
    ensures if name.FreeOperator? then IsLower(NameText(name)[0])
            else IsDigit(NameText(name)[0]) || NameText(name)[0] in "LNSZ"
  {
    hide HeadText, ItemsText, TemplateText, FunctionText, KindCode, Decimal, Abbreviates, WfItems, WfItem,
         WfFunction, WfKind;
    match name {
      case Nested(_, _, _) => assert NameText(name)[0] == 'N';
      case Unscoped(std, item) =>
        HeadStarts(item.internal, item.id, item.tags);
        assert ItemText(item)[0] == HeadText(item.internal, item.id, item.tags)[0];
        assert NameText(name)[0] == if std then 'S' else ItemText(item)[0];
      case FreeOperator(c0, c1) => assert NameText(name)[0] == c0;
      case Local(f, entity) => assert NameText(name)[0] == 'Z';
    }
  }

  /** The alternatives of <type> behind <name>. */
  function TypeTail(g: Grammar, i: nat, o: Out): Step
    requires i <= |g.text|
  {
    var a := WriteArrayType(g, i, o);
    if !a.at.Reject? then a else
    var p := WritePointerToMemberType(g, i, a.out);
    if !p.at.Reject? then p else
    var s := WriteSubstitution(g, i, p.out);
    if !s.at.Reject? then s else
    var t := WriteTemplatedParam(g, i, s.out);
    if !t.at.Reject? then t else WriteTemplateParam(g, i, t.out)
  }

  lemma TypeIs(g: Grammar, i: nat, o: Out)
    requires i <= |g.text| && WriteModifiedType(g, i, o) == Step(Reject, o)
    ensures var b := WriteBuiltinType(g, i, o);
      if !b.at.Reject? then WriteType(g, i, o) == b else
      var f := WriteFunctionType(g, i, b.out);
      if !f.at.Reject? then WriteType(g, i, o) == f else
      var n := WriteName(g, i, f.out);
      WriteType(g, i, o) == if !n.at.Reject? then n else TypeTail(g, i, n.out)
  {
    hide WriteModifiedType, WriteBuiltinType, WriteFunctionType, WriteName, WriteArrayType, WritePointerToMemberType,
         WriteSubstitution, WriteTemplatedParam, WriteTemplateParam, Writes, Keeps;
  }

  /** No modifier, builtin or function type begins here. */
  lemma NoPlainType(g: Grammar, i: nat, o: Out)
    requires i <= |g.text| && (Knows(g) || i == |g.text|) && !IsLower(g.At(i)) && g.At(i) !in "VKOPRCGDUF"
    ensures var n := WriteName(g, i, o); WriteType(g, i, o) == if !n.at.Reject? then n else TypeTail(g, i, n.out)
  {
    hide Knows, FindChar;
    if i < |g.text| { NoBuiltin(g, i); }
    NotModified(g, i, o);
    assert WriteBuiltinType(g, i, o) == Step(Reject, o) && WriteFunctionType(g, i, o) == Step(Reject, o);
    TypeIs(g, i, o);
    hide TypeTail, WriteType, WriteModifiedType, WriteName, Writes, Keeps;
  }

  lemma NoTail(g: Grammar, i: nat, o: Out)
    requires i <= |g.text| && g.At(i) !in "AMST"
    ensures TypeTail(g, i, o) == Step(Reject, o)
  {
    hide Writes, Keeps;
    UndoNothing(o);
    assert WriteTemplatedParam(g, i, o) == Step(Reject, o);
  }

  lemma BuiltinKnown(g: Grammar, i: nat)
    requires i < |g.text| && Knows(g) && IsBuiltin(g.text[i])
    ensures FindChar(g.builtins, 0, g.At(i)) == Some(BuiltinReadable(g.text[i]))
    ensures IsLower(g.At(i)) && g.At(i) != 'r' && g.At(i) != 'u'
  {
    BuiltinIsLower(g.text[i]);
    hide FindChar, IsBuiltin;
  }

  lemma BuiltinRead(g: Grammar, i: nat, o: Out)
    requires i < |g.text| && Knows(g) && IsBuiltin(g.text[i])
    ensures WriteType(g, i, o) == Step(Accept(i + 1), Emit(o, BuiltinReadable(g.text[i])))
  {
    hide Knows, IsBuiltin, FindChar, Emit, BuiltinReadable, Writes, Keeps, WriteType, WriteModifiedType, WriteName,
         WriteFunctionType, TypeTail;
    BuiltinKnown(g, i);
    NotModified(g, i, o);
    assert WriteBuiltinType(g, i, o) == Step(Accept(i + 1), Emit(o, BuiltinReadable(g.text[i])));
    hide WriteBuiltinType;
    TypeIs(g, i, o);
  }

  /** A modifier in front of a type, or up to three qualifiers in a row. */
  lemma ModifiedRead(g: Grammar, i: nat, o: Out, r: Step)
    requires i < |g.text| && g.text[i] in "OPRCGrVK" && r.at.Accept?
    requires g.text[i] in "OPRCG" ==> WriteType(g, i + 1, o) == r
    requires g.text[i] in "rVK" ==> WriteType(g, g.CvEnd(i), o) == r
    ensures WriteType(g, i, o) == r
  {
    ModifiedFirst(g, i, o);
    hide WriteType, Grammar.Type, WriteExtendedType, Grammar.ExtendedType, Keeps;
    assert WriteQualifiedType(g, i, o) == if g.text[i] in "rVK" then r else Step(Reject, o);
  }

  lemma ModifiedFirst(g: Grammar, i: nat, o: Out)
    requires i <= |g.text| && WriteModifiedType(g, i, o).at.Accept?
    ensures WriteType(g, i, o) == WriteModifiedType(g, i, o)
  {
    hide WriteModifiedType, Grammar.ModifiedType, Writes, Keeps;
  }

  lemma ArrayRead(g: Grammar, i: nat, o: Out, dimension: nat, r: Step)
    requires i < |g.text| && Knows(g) && g.text[i] == 'A' && g.Number(i + 1) == Accept(dimension) && r.at.Accept?
    requires g.At(dimension) == '_' && dimension < |g.text| && WriteType(g, dimension + 1, o) == r
    ensures WriteType(g, i, o) == r
  {
    hide WriteType, Grammar.Type, WriteName, Grammar.Name, Grammar.Number, Knows, Writes, Keeps;
    NoPlainType(g, i, o);
    NoNameHere(g, i, o);
    hide WriteExpressionArray, Grammar.ExpressionArray;
    assert WriteNumberedArray(g, i + 1, o) == r;
  }

  lemma NoExpressionHere(g: Grammar, i: nat, o: Out)
    requires i < |g.text| && g.text[i] == '_'
    ensures WriteExpression(g, i, o) == Step(Reject, o)
  {
    hide Writes, Keeps;
    UndoNothing(o);
    assert WriteOperatorName(g, i, o) == Step(Reject, o);
    hide WriteOperatorName, Grammar.OperatorName;
    forall count ensures WriteOperation(g, i, count, o) == Step(Reject, o) {}
    hide WriteOperation, Grammar.Operation;
  }

  /** An array of unknown size. */
  lemma OpenArrayRead(g: Grammar, i: nat, o: Out, r: Step)
    requires i + 1 < |g.text| && Knows(g) && g.text[i] == 'A' && g.text[i + 1] == '_' && r.at.Accept?
    requires WriteType(g, i + 2, o) == r
    ensures WriteType(g, i, o) == r
  {
    hide WriteType, Grammar.Type, WriteName, Grammar.Name, Knows, Writes, Keeps, WriteExpression, Grammar.Expression;
    NoPlainType(g, i, o);
    NoNameHere(g, i, o);
    NoExpressionHere(g, i + 1, o);
    assert WriteNumberedArray(g, i + 1, o) == Step(Reject, o);
    assert WriteExpressionArray(g, i + 1, o) == r;
  }

  lemma MemberRead(g: Grammar, i: nat, o: Out, mid: nat, x: Out, r: Step)
    requires i < |g.text| && Knows(g) && g.text[i] == 'M' && r.at.Accept?
    requires WriteType(g, i + 1, o) == Step(Accept(mid), x) && mid <= |g.text| && WriteType(g, mid, x) == r
    ensures WriteType(g, i, o) == r
  {
    hide WriteType, Grammar.Type, WriteName, Grammar.Name, Knows, Writes, Keeps;
    NoPlainType(g, i, o);
    NoNameHere(g, i, o);
  }

  lemma FunctionTypeRead(g: Grammar, i: nat, o: Out, end: nat)
    requires i < |g.text| && Knows(g) && g.text[i] == 'F'
    requires g.BareFunctionType(if g.At(i + 1) == 'Y' then i + 2 else i + 1) == Accept(end) && g.At(end) == 'E'
    ensures WriteType(g, i, o) == Step(Accept(end + 1), Emit(o, "()"))
  {
    hide Knows, FindChar, Emit, Grammar.BareFunctionType;
    NoBuiltin(g, i);
    NotModified(g, i, o);
    assert WriteBuiltinType(g, i, o) == Step(Reject, o);
    assert WriteFunctionType(g, i, o) == Step(Accept(end + 1), Emit(o, "()"));
    TypeIs(g, i, o);
    hide TypeTail, WriteType, WriteModifiedType, WriteBuiltinType, WriteFunctionType, WriteName, Writes, Keeps;
  }

  lemma VendorRead(g: Grammar, i: nat, id: string, o: Out)
    requires Knows(g) && Reads(g, i, "u" + IdText(id)) && IsIdentifier(id)
    ensures WriteType(g, i, o) == Step(Accept(i + 1 + |IdText(id)|), Emit(o, Shown(id)))
  {
    hide Knows, FindChar, Emit, Shown, IdText, Reads, IsIdentifier, Grammar.SourceName, WriteSourceName;
    hide Writes, Keeps, WriteType, WriteModifiedType, WriteName, TypeTail;
    ReadsBoth(g, i, "u", IdText(id));
    SourceNameRead(g, i + 1, id, o);
    NoBuiltin(g, i);
    NotModified(g, i, o);
    assert WriteBuiltinType(g, i, o) == Step(Accept(i + 1 + |IdText(id)|), Emit(o, Shown(id)));
    hide WriteBuiltinType;
    TypeIs(g, i, o);
  }

  lemma VendorModifiedRead(g: Grammar, i: nat, o: Out, mid: nat, x: Out, r: Step)
    requires i < |g.text| && g.text[i] == 'U' && WriteSourceName(g, i + 1, o) == Step(Accept(mid), x) && mid <= |g.text|
    requires WriteType(g, mid, x) == r && r.at.Accept?
    ensures WriteType(g, i, o) == r
  {
    hide WriteType, Grammar.Type, WriteSourceName, Grammar.SourceName, Writes, Keeps;
    assert WriteVendorType(g, i + 1, o) == r;
    assert WriteExtendedType(g, i, o) == r;
    assert WriteQualifiedType(g, i, o) == Step(Reject, o);
    hide WriteExtendedType, WriteQualifiedType;
    ModifiedFirst(g, i, o);
  }

  lemma ExpansionRead(g: Grammar, i: nat, o: Out, r: Step)
    requires i + 1 < |g.text| && g.text[i] == 'D' && g.text[i + 1] == 'p'
    requires WriteType(g, i + 2, o) == r && r.at.Accept?
    ensures WriteType(g, i, o) == r
  {
    hide WriteType, Grammar.Type, Writes, Keeps;
    assert WriteExtendedType(g, i, o) == r;
    assert WriteQualifiedType(g, i, o) == Step(Reject, o);
    hide WriteExtendedType, WriteQualifiedType;
    ModifiedFirst(g, i, o);
  }

  // ---------- what stands for something else ----------

  /** A standard abbreviation is expanded; for anything else there is a question mark. */
  function PlaceOut(o: Out, place: Place): Out
  {
    if place.Standard? then WriteAbbreviation(StandardName(place.code), o) else Emit(o, "?")
  }

  lemma ParamRead(g: Grammar, i: nat, index: Option<nat>)
    requires Reads(g, i, ParamText(index))
    ensures g.TemplateParam(i) == Accept(i + |ParamText(index)|) && g.At(i) == 'T'
  {
    hide Reads, Decimal;
    if index.Some? {
      var n := Decimal(index.value);
      ReadsBoth(g, i, "T", n + "_");
      ReadsBoth(g, i + 1, n, "_");
      NumberRead(g, i + 1, index.value);
    } else {
      assert "T_" == "T" + "_";
      ReadsBoth(g, i, "T", "_");
    }
  }

  lemma EarlierRead(g: Grammar, i: nat, id: string, o: Out)
    requires Reads(g, i, "S" + (id + "_")) && forall k :: 0 <= k < |id| ==> SeqIdChars.Has(id[k])
    ensures WriteSubstitution(g, i, o) == Step(Accept(i + 2 + |id|), Emit(o, "?"))
    ensures g.At(i) == 'S' && g.At(i + 1) != 't'
  {
    hide Reads, Emit, FindChar, Writes, Keeps;
    ReadsBoth(g, i, "S", id + "_");
    ReadsBoth(g, i + 1, id, "_");
    RunIs(g, i + 1, SeqIdChars, id);
  }

  lemma StandardRead(g: Grammar, i: nat, code: char, o: Out)
    requires Knows(g) && Reads(g, i, "S" + [code]) && code in "tabsiod"
    ensures WriteSubstitution(g, i, o) == Step(Accept(i + 2), PlaceOut(o, Standard(code)))
    ensures g.At(i) == 'S' && g.At(i + 1) == code
  {
    hide Knows, FindChar, WriteAbbreviation, Reads, StandardName, Writes, Keeps;
    StandardKnown(g, code);
    ReadsBoth(g, i, "S", [code]);
    assert g.RunEnd(i + 1, SeqIdChars) == i + 1;
  }

  lemma PlaceRead(g: Grammar, i: nat, place: Place, inName: bool, o: Out)
    requires Knows(g) && WfPlace(place, inName) && Reads(g, i, PlaceText(place))
    ensures var e := Accept(i + |PlaceText(place)|);
      if place.Param? then g.TemplateParam(i) == e && g.At(i) == 'T'
      else WriteSubstitution(g, i, o) == Step(e, PlaceOut(o, place)) && g.At(i) == 'S'
    ensures !inName && !place.Param? ==> g.At(i + 1) != 't'
    ensures i < i + |PlaceText(place)| <= |g.text|
  {
    hide Knows, Reads, Decimal, StandardName, Writes, Keeps, Emit, WriteAbbreviation, ParamText, WriteSubstitution,
         Grammar.Substitution, Grammar.TemplateParam;
    ParamStarts(place);
    ReadsSlice(g, i, PlaceText(place));
    match place {
      case Param(index) => ParamRead(g, i, index);
      case Earlier(id) => EarlierRead(g, i, id, o);
      case Standard(code) => StandardRead(g, i, code, o);
    }
  }

  /** As a part of a name. */
  lemma PlaceItemRead(g: Grammar, i: nat, place: Place, o: Out)
    requires Knows(g) && WfPlace(place, true) && Reads(g, i, PlaceText(place))
    ensures WritePrefixItem(g, i, o) == Step(Accept(i + |PlaceText(place)|), PlaceOut(o, place))
    ensures g.At(i) in "ST"
  {
    PlaceRead(g, i, place, true, o);
    hide Knows, Reads, Emit, WriteAbbreviation, WfPlace, PlaceText, WriteSubstitution, Grammar.Substitution,
         WriteUnscopedName, Grammar.UnscopedName;
  }

  /** Without template arguments, what stands for a type is read twice, because it was first taken for a
      template. */
  function PlacedOut(o: Out, place: Place, templated: bool): Out
  {
    var u := PlaceOut(o, place);
    if templated then Emit(u, "<>") else PlaceOut(Undo(o, u), place)
  }

  lemma PlacedRead(g: Grammar, i: nat, o: Out, place: Place, k: nat, end: nat)
    requires Knows(g) && WfPlace(place, false) && Reads(g, i, PlaceText(place)) && k == i + |PlaceText(place)|
    requires if g.At(k) == 'I' then g.TemplateArgs(k) == Accept(end) else end == k
    ensures WriteType(g, i, o) == Step(Accept(end), PlacedOut(o, place, g.At(k) == 'I'))
  {
    var u := PlaceOut(o, place);
    PlaceRead(g, i, place, false, o);
    PlaceRead(g, i, place, false, Undo(o, u));
    hide Knows, Reads, Emit, Undo, WriteAbbreviation, WfPlace, PlaceText, WriteSubstitution, Grammar.Substitution,
         WriteType, Grammar.Type, Grammar.TemplateArgs, Grammar.TemplateParam;
    if place.Param? {
      ParamTypeRead(g, i, o, k, end);
    } else {
      EarlierTypeRead(g, i, o, k, u, PlaceOut(Undo(o, u), place), end);
    }
  }

  lemma ParamTypeRead(g: Grammar, i: nat, o: Out, k: nat, end: nat)
    requires i < |g.text| && Knows(g) && g.text[i] == 'T' && g.TemplateParam(i) == Accept(k) && k <= |g.text|
    requires if g.At(k) == 'I' then g.TemplateArgs(k) == Accept(end) else end == k
    ensures var u := Emit(o, "?");
      WriteType(g, i, o) == Step(Accept(end), if g.At(k) == 'I' then Emit(u, "<>") else Emit(Undo(o, u), "?"))
  {
    hide WriteType, Grammar.Type, WriteName, Grammar.Name, Knows, Writes, Keeps, Emit, Undo;
    if g.At(k) != 'I' { NoTemplateArgs(g, k); }
    NoPlainType(g, i, o);
    NoNameHere(g, i, o);
    hide Grammar.TemplateArgs, Grammar.TemplateParam;
    assert WriteArrayType(g, i, o) == Step(Reject, o) && WritePointerToMemberType(g, i, o) == Step(Reject, o);
    assert WriteSubstitution(g, i, o) == Step(Reject, o);
    assert WriteTemplateTemplateParam(g, i, o) == Step(Accept(k), Emit(o, "?"));
  }

  lemma EarlierTypeRead(g: Grammar, i: nat, o: Out, k: nat, u: Out, v: Out, end: nat)
    requires i < |g.text| && Knows(g) && g.text[i] == 'S' && g.At(i + 1) != 't' && k <= |g.text|
    requires WriteSubstitution(g, i, o) == Step(Accept(k), u)
    requires WriteSubstitution(g, i, Undo(o, u)) == Step(Accept(k), v)
    requires if g.At(k) == 'I' then g.TemplateArgs(k) == Accept(end) else end == k
    ensures WriteType(g, i, o) == Step(Accept(end), if g.At(k) == 'I' then Emit(u, "<>") else v)
  {
    hide WriteType, Grammar.Type, Knows, Writes, Keeps, Emit, Undo, WriteSubstitution, Grammar.Substitution;
    if g.At(k) != 'I' { NoTemplateArgs(g, k); }
    NoPlainType(g, i, o);
    EarlierName(g, i, o, k, u);
    hide Grammar.TemplateArgs, WriteName, Grammar.Name;
    var w := Undo(o, u);
    assert WriteArrayType(g, i, w) == Step(Reject, w) && WritePointerToMemberType(g, i, w) == Step(Reject, w);
  }

  lemma EarlierName(g: Grammar, i: nat, o: Out, k: nat, u: Out)
    requires i < |g.text| && g.text[i] == 'S' && g.At(i + 1) != 't' && k <= |g.text|
    requires WriteSubstitution(g, i, o) == Step(Accept(k), u)
    requires g.TemplateArgs(k).Accept? || g.TemplateArgs(k) == Reject
    ensures WriteName(g, i, o) ==
      if g.TemplateArgs(k).Accept? then Step(g.TemplateArgs(k), Emit(u, "<>")) else Step(Reject, Undo(o, u))
  {
    hide Writes, Keeps, Emit, Undo, WriteSubstitution, Grammar.Substitution, Grammar.TemplateArgs;
    hide WriteUnqualifiedName, Grammar.UnqualifiedName;
    NoUnqualified(g, i, o);
    NoUnqualified(g, i, Undo(o, u));
    assert WriteUnscopedName(g, i, o) == Step(Reject, o);
    assert WriteUnscopedName(g, i, Undo(o, u)) == Step(Reject, Undo(o, u));
    assert WriteUnscopedTemplateName(g, i, o) == Step(Accept(k), u);
    assert WriteTemplatedName(g, i, o) ==
      if g.TemplateArgs(k).Accept? then Step(g.TemplateArgs(k), Emit(u, "<>")) else Step(Reject, Undo(o, u));
  }

  lemma ClassRead(g: Grammar, i: nat, o: Out, r: Step)
    requires i <= |g.text| && Knows(g) && (IsDigit(g.At(i)) || g.At(i) in "LNSZ")
    requires WriteName(g, i, o) == r && r.at.Accept?
    ensures WriteType(g, i, o) == r
  {
    hide WriteType, WriteName, Knows;
    NoPlainType(g, i, o);
  }
}
