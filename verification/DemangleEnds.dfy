/** Whether the demangled text is followed by a NUL.  It is not when the last thing that a name does is to
    append nothing: then an abandoned attempt may have overwritten the NUL, or nothing was ever written. */
module DemangleEnds {
  import opened Lists
  import opened MangledText
  import opened DemangleGrammar
  import opened DemangleBuffer
  import opened DemangleOutput
  import Fit = DemangleFit

  // ---------- what speaks last, told from the mangled text ----------

  /** The encoding is that of a function, or what it ends in is not empty. */
  predicate EncodingSays(g: Grammar, i: nat)
    requires i <= |g.text|
    decreases |g.text| - i, 8
  {
    if g.FunctionEncoding(i).Accept? then true
    else if g.Name(i).Accept? then NameSays(g, i)
    else SpecialSays(g, i)
  }

  predicate NameSays(g: Grammar, i: nat)
    requires i <= |g.text|
    decreases |g.text| - i, 5
  {
    if g.NestedName(i).Accept? then g.At(g.CvEnd(i + 1)) != 'E'
    else if g.LocalName(i).Accept? then LocalSays(g, i + 1)
    else g.TemplatedName(i).Accept? || UnscopedSays(g, i)
  }

  predicate LocalSays(g: Grammar, i: nat)
    requires i <= |g.text|
    decreases |g.text| - i, 9
  {
    if g.LocalEntity(i).Accept? then NameSays(g, g.Expect(g.Encoding(i), 'E').end) else EncodingSays(g, i)
  }

  predicate UnscopedSays(g: Grammar, i: nat)
    requires i <= |g.text|
    decreases |g.text| - i, 2
  {
    if g.UnqualifiedName(i).Accept? then UnqualifiedSays(g, i)
    else g.At2(i, 'S', 't') && g.UnqualifiedName(i + 2).Accept? && UnqualifiedSays(g, i + 2)
  }

  predicate UnqualifiedSays(g: Grammar, i: nat)
    requires i <= |g.text|
    decreases |g.text| - i, 1
  {
    if g.OperatorName(i).Accept? then OperatorSays(g, i)
    else if g.CtorDtorName(i).Accept? then g.At(i) == 'D'
    else if g.SourceName(i).Accept? then g.NumberValue(i) > 0
    else g.LocalSourceName(i).Accept? && g.NumberValue(i + 1) > 0
  }

  predicate OperatorSays(g: Grammar, i: nat)
    requires i <= |g.text|
    decreases |g.text| - i, 0
  {
    if g.At2(i, 'c', 'v') && g.Type(i + 2).Accept? then TypeSays(g, i + 2)
    else g.At(i) == 'v' && IsDigit(g.At(i + 1)) && g.SourceName(i + 2).Accept? ==> g.NumberValue(i + 2) > 0
  }

  predicate SpecialSays(g: Grammar, i: nat)
    requires i <= |g.text|
    decreases |g.text| - i, 1
  {
    if g.At(i) == 'T' && g.At(i + 1) in "VTIS" && g.Type(i + 2).Accept? then TypeSays(g, i + 2)
    else if g.At2(i, 'T', 'c') && g.Offsets2Encoding(i + 2).Accept? then OffsetSays(g, g.CallOffset(i + 2).end)
    else if g.At2(i, 'G', 'V') && g.Name(i + 2).Accept? then NameSays(g, i + 2)
    else if g.At(i) == 'T' && g.OffsetEncoding(i + 1).Accept? then OffsetSays(g, i + 1)
    else GnuSays(g, i)
  }

  predicate GnuSays(g: Grammar, i: nat)
    requires i <= |g.text|
    decreases |g.text| - i, 0
  {
    if g.At2(i, 'T', 'C') && g.ConstructionVtable(i + 2).Accept? then TypeSays(g, i + 2)
    else if g.At(i) == 'T' && g.At(i + 1) in "FJ" && g.Type(i + 2).Accept? then TypeSays(g, i + 2)
    else if g.At2(i, 'G', 'R') && g.Name(i + 2).Accept? then NameSays(g, i + 2)
    else if g.At2(i, 'G', 'A') && g.Encoding(i + 2).Accept? then EncodingSays(g, i + 2)
    else g.At(i) == 'T' && g.At(i + 1) in "hv" && OffsetSays(g, i + 2)
  }

  predicate OffsetSays(g: Grammar, i: nat)
    requires i <= |g.text|
    decreases |g.text| - i, 9
  {
    g.CallOffset(i).Accept? && EncodingSays(g, g.CallOffset(i).end)
  }

  predicate TypeSays(g: Grammar, i: nat)
    requires i <= |g.text|
    decreases |g.text| - i, 6
  {
    if g.ModifiedType(i).Accept? then ModifiedSays(g, i)
    else if g.BuiltinType(i).Accept? then BuiltinSays(g, i)
    else if g.FunctionType(i).Accept? then true
    else if g.Name(i).Accept? then NameSays(g, i)
    else if g.ArrayType(i).Accept? then ArraySays(g, i + 1)
    else if g.PointerToMemberType(i).Accept? then TypeSays(g, g.Type(i + 1).end)
    else true
  }

  predicate BuiltinSays(g: Grammar, i: nat)
    requires i <= |g.text| && g.BuiltinType(i).Accept?
  {
    var found := FindChar(g.builtins, 0, g.At(i));
    if found.Some? then found.value != "" else g.NumberValue(i + 1) > 0
  }

  predicate ModifiedSays(g: Grammar, i: nat)
    requires i <= |g.text|
    decreases |g.text| - i, 1
  {
    if g.QualifiedType(i).Accept? then TypeSays(g, g.CvEnd(i))
    else if g.At(i) in "OPRCG" && g.Type(i + 1).Accept? then TypeSays(g, i + 1)
    else ExtendedSays(g, i)
  }

  predicate ExtendedSays(g: Grammar, i: nat)
    requires i <= |g.text|
    decreases |g.text| - i, 0
  {
    if g.At2(i, 'D', 'p') && g.Type(i + 2).Accept? then TypeSays(g, i + 2)
    else if g.At(i) == 'D' && g.At(i + 1) in "tT" && g.Expect(g.Expression(i + 2), 'E').Accept? then
      ExpressionSays(g, i + 2)
    else g.At(i) == 'U' && g.SourceName(i + 1).Accept? && TypeSays(g, g.SourceName(i + 1).end)
  }

  predicate ArraySays(g: Grammar, i: nat)
    requires i <= |g.text|
    decreases |g.text| - i, 7
  {
    if g.NumberedArray(i).Accept? then TypeSays(g, g.Expect(g.Number(i), '_').end) else
    var e := g.Expression(i);
    var d := g.Expect(if e.Reject? then Accept(i) else e, '_');
    d.Accept? && TypeSays(g, d.end)
  }

  predicate ExpressionSays(g: Grammar, i: nat)
    requires i <= |g.text|
    decreases |g.text| - i, 2
  {
    if g.TemplateParam(i).Accept? then true
    else if g.ExprPrimary(i).Accept? then PrimarySays(g, i + 1)
    else if g.Operation(i, 3).Accept? then OperandsSay(g, g.OperatorName(i).end, 3)
    else if g.Operation(i, 2).Accept? then OperandsSay(g, g.OperatorName(i).end, 2)
    else if g.Operation(i, 1).Accept? then OperandsSay(g, g.OperatorName(i).end, 1)
    else if g.At2(i, 's', 't') && g.Type(i + 2).Accept? then TypeSays(g, i + 2)
    else if g.At2(i, 's', 'r') && g.ScopedTemplate(i + 2).Accept? then true
    else g.At2(i, 's', 'r') && g.Type(i + 2).Accept? && UnqualifiedSays(g, g.Type(i + 2).end)
  }

  /** The last of `count` expressions */
  predicate OperandsSay(g: Grammar, i: nat, count: nat)
    requires i <= |g.text|
    decreases |g.text| - i, 3
  {
    && count > 0 && g.Expression(i).Accept?
    && if count == 1 then ExpressionSays(g, i) else OperandsSay(g, g.Expression(i).end, count - 1)
  }

  predicate PrimarySays(g: Grammar, i: nat)
    requires i <= |g.text|
    decreases |g.text| - i, 9
  {
    if g.Literal(i, false).Accept? || g.Literal(i, true).Accept? then TypeSays(g, i)
    else if g.Expect(g.MangledName(i), 'E').Accept? then EncodingSays(g, i + 2)
    else g.At(i) == 'Z' && EncodingSays(g, i + 1)
  }

  // ---------- what speaks last is written last ----------

  lemma EmitEnds(o: Out, str: string)
    requires o.append && str != ""
    ensures Emit(o, str).ideal.ended
  {}

  lemma {:induction false} EncodingEnds(g: Grammar, i: nat, o: Out)
    requires i <= |g.text| && o.append && WriteEncoding(g, i, o).at.Accept? && EncodingSays(g, i)
    ensures WriteEncoding(g, i, o).out.ideal.ended
    decreases |g.text| - i, 8
  {
    var f := WriteFunctionEncoding(g, i, o);
    if f.at.Accept? {
      FunctionEncodingEnds(g, i, o);
    } else {
      var n := WriteName(g, i, f.out);
      if n.at.Accept? { NameEnds(g, i, f.out); } else { SpecialNameEnds(g, i, n.out); }
    }
  }

  lemma {:induction false} FunctionEncodingEnds(g: Grammar, i: nat, o: Out)
    requires i <= |g.text| && o.append && WriteFunctionEncoding(g, i, o).at.Accept?
    ensures WriteFunctionEncoding(g, i, o).out.ideal.ended
    decreases |g.text| - i, 0
  {
    EmitEnds(WriteName(g, i, o).out, "()");
  }

  lemma {:induction false} NameEnds(g: Grammar, i: nat, o: Out)
    requires i <= |g.text| && o.append && WriteName(g, i, o).at.Accept? && NameSays(g, i)
    ensures WriteName(g, i, o).out.ideal.ended
    decreases |g.text| - i, 5
  {
    var n := WriteNestedName(g, i, o);
    if n.at.Accept? {
      NestedNameEnds(g, i, o);
    } else {
      var l := WriteLocalName(g, i, n.out);
      if l.at.Accept? {
        LocalNameEnds(g, i, n.out);
      } else {
        var t := WriteTemplatedName(g, i, l.out);
        if t.at.Accept? { TemplatedNameEnds(g, i, l.out); } else { UnscopedNameEnds(g, i, t.out); }
      }
    }
  }

  lemma {:induction false} TemplatedNameEnds(g: Grammar, i: nat, o: Out)
    requires i <= |g.text| && o.append && WriteTemplatedName(g, i, o).at.Accept?
    ensures WriteTemplatedName(g, i, o).out.ideal.ended
    decreases |g.text| - i, 0
  {
    EmitEnds(WriteUnscopedTemplateName(g, i, o).out, "<>");
  }

  lemma {:induction false} NestedNameEnds(g: Grammar, i: nat, o: Out)
    requires i <= |g.text| && o.append && WriteNestedName(g, i, o).at.Accept? && g.At(g.CvEnd(i + 1)) != 'E'
    ensures WriteNestedName(g, i, o).out.ideal.ended
    decreases |g.text| - i, 0
  {
    var k, p := g.CvEnd(i + 1), o.(nest := 0);
    var a := WritePrefixItem(g, k, p);
    if a.at.Accept? { PrefixEnds(g, a.at.end, true, Deepen(a.out)); }
  }

  /** Behind the last item a separator is cancelled, which leaves a NUL. */
  lemma {:induction false} PrefixEnds(g: Grammar, i: nat, has: bool, o: Out)
    requires i <= |g.text| && o.append && o.nest >= 1 && WritePrefix(g, i, has, o).at.Accept?
    ensures WritePrefix(g, i, has, o).out.ideal.ended
    decreases |g.text| - i
  {
    var a := WritePrefixItem(g, i, Separate(o));
    if a.at.Accept? {
      PrefixEnds(g, a.at.end, true, Deepened(o, a.out));
    } else {
      var c := Cancelled(o, a.out);
      CancelledEnds(o, a.out);
      if has {
        var t := WriteTemplateArgs(g, i, c);
        if t.at.Accept? { PrefixEnds(g, t.at.end, false, t.out); }
      }
    }
  }

  lemma CancelledEnds(o: Out, a: Out)
    requires o.append && o.nest >= 1 && Keeps(Separate(o), Step(Reject, a))
    ensures Cancelled(o, a).ideal.ended
  {
    Fit.EmitText(o.ideal, "::");
  }

  lemma {:induction false} LocalNameEnds(g: Grammar, i: nat, o: Out)
    requires i < |g.text| && o.append && WriteLocalName(g, i, o).at.Accept? && LocalSays(g, i + 1)
    ensures WriteLocalName(g, i, o).out.ideal.ended
    decreases |g.text| - i, 0
  {
    hide Grammar.Encoding, Grammar.Name, Grammar.EntityName, WriteEncoding, WriteName;
    var e := WriteLocalEntity(g, i + 1, o);
    if e.at.Accept? {
      EntityEnds(g, i + 1, o);
    } else {
      EncodingEnds(g, i + 1, e.out);
    }
  }

  lemma {:induction false} EntityEnds(g: Grammar, i: nat, o: Out)
    requires i <= |g.text| && o.append && WriteLocalEntity(g, i, o).at.Accept?
    requires NameSays(g, g.Expect(g.Encoding(i), 'E').end)
    ensures WriteLocalEntity(g, i, o).out.ideal.ended
    decreases |g.text| - i, 8
  {
    hide Grammar.Encoding, Grammar.Name, WriteEncoding, WriteName, NameSays;
    var f := WriteEncoding(g, i, o);
    var k := g.Expect(f.at, 'E').end;
    assert WriteEntityName(g, k, f.out).out == WriteName(g, k, Emit(f.out, "::")).out;
    NameEnds(g, k, Emit(f.out, "::"));
  }

  lemma {:induction false} UnscopedNameEnds(g: Grammar, i: nat, o: Out)
    requires i <= |g.text| && o.append && WriteUnscopedName(g, i, o).at.Accept? && UnscopedSays(g, i)
    ensures WriteUnscopedName(g, i, o).out.ideal.ended
    decreases |g.text| - i, 2
  {
    var u := WriteUnqualifiedName(g, i, o);
    if u.at.Accept? {
      UnqualifiedNameEnds(g, i, o);
    } else {
      UnqualifiedNameEnds(g, i + 2, Emit(u.out, "std::"));
    }
  }

  lemma {:induction false} UnqualifiedNameEnds(g: Grammar, i: nat, o: Out)
    requires i <= |g.text| && o.append && WriteUnqualifiedName(g, i, o).at.Accept? && UnqualifiedSays(g, i)
    ensures WriteUnqualifiedName(g, i, o).out.ideal.ended
    decreases |g.text| - i, 1
  {
    var op := WriteOperatorName(g, i, o);
    if op.at.Accept? {
      OperatorNameEnds(g, i, o);
    } else {
      var c := WriteCtorDtorName(g, i, op.out);
      if c.at.Accept? {
        CtorDtorNameEnds(g, i, op.out);
      } else if g.SourceName(i).Accept? {
        SourceNameEnds(g, i, c.out);
      } else {
        SourceNameEnds(g, i + 1, WriteSourceName(g, i, c.out).out);
      }
    }
  }

  lemma SourceNameEnds(g: Grammar, i: nat, o: Out)
    requires i <= |g.text| && o.append && g.SourceName(i).Accept? && g.NumberValue(i) > 0
    ensures WriteSourceName(g, i, o).out.ideal.ended
  {
    var n, end := g.Number(i).end, g.SourceName(i).end;
    assert g.text[n..end] != "";
    EmitEnds(o, Shown(g.text[n..end]));
  }

  lemma CtorDtorNameEnds(g: Grammar, i: nat, o: Out)
    requires i <= |g.text| && o.append && g.CtorDtorName(i).Accept? && g.At(i) == 'D'
    ensures WriteCtorDtorName(g, i, o).out.ideal.ended
  {
    EmitEnds(o, "~");
  }

  lemma {:induction false} OperatorNameEnds(g: Grammar, i: nat, o: Out)
    requires i <= |g.text| && o.append && WriteOperatorName(g, i, o).at.Accept? && OperatorSays(g, i)
    ensures WriteOperatorName(g, i, o).out.ideal.ended
    decreases |g.text| - i, 0
  {
    var c := if g.At2(i, 'c', 'v') then WriteCast(g, i + 2, o) else Step(Reject, o);
    if c.at.Accept? {
      TypeEnds(g, i + 2, Emit(o, "operator ").(nest := 0));
    } else {
      var v := if g.At(i) == 'v' && IsDigit(g.At(i + 1)) then WriteSourceName(g, i + 2, c.out) else c;
      if v.at.Accept? {
        SourceNameEnds(g, i + 2, c.out);
      } else {
        EmitEnds(v.out, "operator");
      }
    }
  }

  lemma {:induction false} SpecialNameEnds(g: Grammar, i: nat, o: Out)
    requires i <= |g.text| && o.append && WriteSpecialName(g, i, o).at.Accept? && SpecialSays(g, i)
    ensures WriteSpecialName(g, i, o).out.ideal.ended
    decreases |g.text| - i, 1
  {
    hide Grammar.Type, Grammar.Name, Grammar.OffsetEncoding, Grammar.Offsets2Encoding, Grammar.GnuSpecialName;
    hide WriteType, WriteName, WriteOffsetEncoding, WriteGnuSpecialName;
    hide TypeSays, NameSays, OffsetSays, GnuSays;
    var a := if g.At(i) == 'T' && g.At(i + 1) in "VTIS" then WriteType(g, i + 2, o) else Step(Reject, o);
    if a.at.Accept? { TypeEnds(g, i + 2, o); return; }
    var b := if g.At2(i, 'T', 'c') then WriteOffsets2Encoding(g, i + 2, a.out) else a;
    if b.at.Accept? { OffsetEncodingEnds(g, g.CallOffset(i + 2).end, a.out); return; }
    var c := if g.At2(i, 'G', 'V') then WriteName(g, i + 2, b.out) else b;
    if c.at.Accept? { NameEnds(g, i + 2, b.out); return; }
    var d := if g.At(i) == 'T' then WriteOffsetEncoding(g, i + 1, c.out) else c;
    if d.at.Accept? { OffsetEncodingEnds(g, i + 1, c.out); return; }
    GnuSpecialNameEnds(g, i, d.out);
  }

  lemma {:induction false} GnuSpecialNameEnds(g: Grammar, i: nat, o: Out)
    requires i <= |g.text| && o.append && WriteGnuSpecialName(g, i, o).at.Accept? && GnuSays(g, i)
    ensures WriteGnuSpecialName(g, i, o).out.ideal.ended
    decreases |g.text| - i, 0
  {
    hide Grammar.Type, Grammar.Name, Grammar.Encoding, Grammar.OffsetEncoding, Grammar.ConstructionVtable;
    hide WriteType, WriteName, WriteEncoding, WriteOffsetEncoding, WriteConstructionVtable;
    hide TypeSays, NameSays, EncodingSays, OffsetSays;
    var e := if g.At2(i, 'T', 'C') then WriteConstructionVtable(g, i + 2, o) else Step(Reject, o);
    if e.at.Accept? { VtableEnds(g, i + 2, o); return; }
    var f := if g.At(i) == 'T' && g.At(i + 1) in "FJ" then WriteType(g, i + 2, e.out) else e;
    if f.at.Accept? { TypeEnds(g, i + 2, e.out); return; }
    var h := if g.At2(i, 'G', 'R') then WriteName(g, i + 2, f.out) else f;
    if h.at.Accept? { NameEnds(g, i + 2, f.out); return; }
    var k := if g.At2(i, 'G', 'A') then WriteEncoding(g, i + 2, h.out) else h;
    if k.at.Accept? { EncodingEnds(g, i + 2, h.out); return; }
    OffsetEncodingEnds(g, i + 2, k.out);
  }

  lemma {:induction false} VtableEnds(g: Grammar, i: nat, o: Out)
    requires i <= |g.text| && o.append && WriteConstructionVtable(g, i, o).at.Accept? && TypeSays(g, i)
    ensures WriteConstructionVtable(g, i, o).out.ideal.ended
    decreases |g.text| - i, 7
  {
    TypeEnds(g, i, o);
  }

  lemma {:induction false} OffsetEncodingEnds(g: Grammar, i: nat, o: Out)
    requires i <= |g.text| && o.append && WriteOffsetEncoding(g, i, o).at.Accept? && OffsetSays(g, i)
    ensures WriteOffsetEncoding(g, i, o).out.ideal.ended
    decreases |g.text| - i, 9
  {
    EncodingEnds(g, g.CallOffset(i).end, o);
  }

  lemma {:induction false} TypeEnds(g: Grammar, i: nat, o: Out)
    requires i <= |g.text| && o.append && WriteType(g, i, o).at.Accept? && TypeSays(g, i)
    ensures WriteType(g, i, o).out.ideal.ended
    decreases |g.text| - i, 6
  {
    var m := WriteModifiedType(g, i, o);
    if m.at.Accept? { ModifiedTypeEnds(g, i, o); return; }
    var b := WriteBuiltinType(g, i, m.out);
    if b.at.Accept? { BuiltinTypeEnds(g, i, m.out); return; }
    var f := WriteFunctionType(g, i, b.out);
    if f.at.Accept? { FunctionTypeEnds(g, i, b.out); return; }
    var n := WriteName(g, i, f.out);
    if n.at.Accept? { NameEnds(g, i, f.out); return; }
    var a := WriteArrayType(g, i, n.out);
    if a.at.Accept? { ArrayTypeEnds(g, i, n.out); return; }
    var p := WritePointerToMemberType(g, i, a.out);
    if p.at.Accept? { TypeEnds(g, g.Type(i + 1).end, WriteType(g, i + 1, a.out).out); return; }
    TypeTailEnds(g, i, p.out);
  }

  /** The alternatives of <type> that end in a text of their own */
  lemma TypeTailEnds(g: Grammar, i: nat, o: Out)
    requires i <= |g.text| && o.append
    ensures var s := WriteSubstitution(g, i, o);
      && (s.at.Accept? ==> s.out.ideal.ended)
      && var t := WriteTemplatedParam(g, i, s.out);
      && (!s.at.Accept? && t.at.Accept? ==> t.out.ideal.ended)
      && (!s.at.Accept? && !t.at.Accept? && g.TemplateParam(i).Accept? ==>
          WriteTemplateParam(g, i, t.out).out.ideal.ended)
  {}

  lemma BuiltinTypeEnds(g: Grammar, i: nat, o: Out)
    requires i <= |g.text| && o.append && g.BuiltinType(i).Accept? && BuiltinSays(g, i)
    ensures WriteBuiltinType(g, i, o).out.ideal.ended
  {
    if FindChar(g.builtins, 0, g.At(i)).None? { SourceNameEnds(g, i + 1, o); }
  }

  lemma FunctionTypeEnds(g: Grammar, i: nat, o: Out)
    requires i <= |g.text| && o.append && g.FunctionType(i).Accept?
    ensures WriteFunctionType(g, i, o).out.ideal.ended
  {}

  lemma {:induction false} ModifiedTypeEnds(g: Grammar, i: nat, o: Out)
    requires i <= |g.text| && o.append && WriteModifiedType(g, i, o).at.Accept? && ModifiedSays(g, i)
    ensures WriteModifiedType(g, i, o).out.ideal.ended
    decreases |g.text| - i, 1
  {
    var a := WriteQualifiedType(g, i, o);
    if a.at.Accept? { TypeEnds(g, g.CvEnd(i), o); return; }
    var b := if g.At(i) in "OPRCG" then WriteType(g, i + 1, a.out) else a;
    if b.at.Accept? { TypeEnds(g, i + 1, a.out); return; }
    ExtendedTypeEnds(g, i, b.out);
  }

  lemma {:induction false} ExtendedTypeEnds(g: Grammar, i: nat, o: Out)
    requires i <= |g.text| && o.append && WriteExtendedType(g, i, o).at.Accept? && ExtendedSays(g, i)
    ensures WriteExtendedType(g, i, o).out.ideal.ended
    decreases |g.text| - i, 0
  {
    var c := if g.At2(i, 'D', 'p') then WriteType(g, i + 2, o) else Step(Reject, o);
    if c.at.Accept? { TypeEnds(g, i + 2, o); return; }
    var d := if g.At(i) == 'D' && g.At(i + 1) in "tT" then WriteDecltype(g, i + 2, c.out) else c;
    if d.at.Accept? { ExpressionEnds(g, i + 2, c.out); return; }
    TypeEnds(g, g.SourceName(i + 1).end, WriteSourceName(g, i + 1, d.out).out);
  }

  lemma {:induction false} ArrayTypeEnds(g: Grammar, i: nat, o: Out)
    requires i <= |g.text| && o.append && WriteArrayType(g, i, o).at.Accept? && ArraySays(g, i + 1) && i < |g.text|
    ensures WriteArrayType(g, i, o).out.ideal.ended
    decreases |g.text| - i, 0
  {
    var n := WriteNumberedArray(g, i + 1, o);
    if n.at.Accept? {
      TypeEnds(g, g.Expect(g.Number(i + 1), '_').end, o);
    } else {
      var e := WriteExpression(g, i + 1, n.out);
      var d := Expect(g, if e.at.Reject? then Step(Accept(i + 1), e.out) else e, '_');
      TypeEnds(g, d.at.end, d.out);
    }
  }

  lemma {:induction false} ExpressionEnds(g: Grammar, i: nat, o: Out)
    requires i <= |g.text| && o.append && WriteExpression(g, i, o).at.Accept? && ExpressionSays(g, i)
    ensures WriteExpression(g, i, o).out.ideal.ended
    decreases |g.text| - i, 2
  {
    var t := WriteTemplateParam(g, i, o);
    if t.at.Accept? { return; }
    var p := WriteExprPrimary(g, i, t.out);
    if p.at.Accept? { ExprPrimaryEnds(g, i, t.out); return; }
    var e3 := WriteOperation(g, i, 3, p.out);
    if e3.at.Accept? { OperationEnds(g, i, 3, p.out); return; }
    var e2 := WriteOperation(g, i, 2, e3.out);
    if e2.at.Accept? { OperationEnds(g, i, 2, e3.out); return; }
    var e1 := WriteOperation(g, i, 1, e2.out);
    if e1.at.Accept? { OperationEnds(g, i, 1, e2.out); return; }
    var st := if g.At2(i, 's', 't') then WriteType(g, i + 2, e1.out) else e1;
    if st.at.Accept? { TypeEnds(g, i + 2, e1.out); return; }
    ScopedEnds(g, i, st.out);
  }

  lemma {:induction false} OperationEnds(g: Grammar, i: nat, count: nat, o: Out)
    requires i <= |g.text| && o.append && WriteOperation(g, i, count, o).at.Accept?
    requires g.OperatorName(i).Accept? && OperandsSay(g, g.OperatorName(i).end, count)
    ensures WriteOperation(g, i, count, o).out.ideal.ended
    decreases |g.text| - i, 1
  {
    OperandsEnd(g, g.OperatorName(i).end, count, WriteOperatorName(g, i, o).out);
  }

  /** The two alternatives of <expression> behind `sr` */
  lemma {:induction false} ScopedEnds(g: Grammar, i: nat, o: Out)
    requires i + 2 <= |g.text| && o.append
    requires var t := WriteScopedTemplate(g, i + 2, o); !t.at.Accept? ==>
      && t.at.Reject? && WriteScopedName(g, i + 2, t.out).at.Accept?
      && g.Type(i + 2).Accept? && UnqualifiedSays(g, g.Type(i + 2).end)
    ensures var t := WriteScopedTemplate(g, i + 2, o);
      if t.at.Accept? then t.out.ideal.ended else WriteScopedName(g, i + 2, t.out).out.ideal.ended
    decreases |g.text| - i, 0
  {
    var t := WriteScopedTemplate(g, i + 2, o);
    if t.at.Accept? {
      EmitEnds(WriteScopedName(g, i + 2, o).out, "<>");
    } else {
      UnqualifiedNameEnds(g, g.Type(i + 2).end, WriteType(g, i + 2, t.out).out);
    }
  }

  lemma {:induction false} OperandsEnd(g: Grammar, i: nat, count: nat, o: Out)
    requires i <= |g.text| && o.append && WriteExpressions(g, i, count, o).at.Accept? && OperandsSay(g, i, count)
    ensures WriteExpressions(g, i, count, o).out.ideal.ended
    decreases |g.text| - i, 3
  {
    if count == 1 {
      ExpressionEnds(g, i, o);
      var e := WriteExpression(g, i, o);
      assert WriteExpressions(g, e.at.end, 0, e.out) == Step(Accept(e.at.end), e.out);
    } else {
      var e := WriteExpression(g, i, o);
      OperandsEnd(g, e.at.end, count - 1, e.out);
    }
  }

  lemma {:induction false} ExprPrimaryEnds(g: Grammar, i: nat, o: Out)
    requires i <= |g.text| && o.append && WriteExprPrimary(g, i, o).at.Accept? && PrimarySays(g, i + 1) && i < |g.text|
    ensures WriteExprPrimary(g, i, o).out.ideal.ended
    decreases |g.text| - i, 0
  {
    var n := WriteLiteral(g, i + 1, false, o);
    if n.at.Accept? { TypeEnds(g, i + 1, o); return; }
    var f := WriteLiteral(g, i + 1, true, n.out);
    if f.at.Accept? { TypeEnds(g, i + 1, n.out); return; }
    var m := Closing(f.out, Expect(g, WriteMangledName(g, i + 1, f.out), 'E'));
    if m.at.Accept? { EncodingEnds(g, i + 3, f.out); return; }
    EncodingEnds(g, i + 2, m.out);
  }

  // ---------- whole symbols ----------

  /** A version suffix follows the mangled name. */
  predicate HasVersion(g: Grammar)
  {
    var m := g.MangledName(0);
    m.Accept? && !g.CloneSuffix(m.end) && g.At(m.end) == '@'
  }

  lemma SymbolStart(g: Grammar)
    requires g.Recognised()
    ensures |g.text| >= 2
  {}

  /** The text is terminated if the symbol is that of a function, has a version, or does not end in nothing. */
  lemma SymbolEnds(g: Grammar)
    requires g.Recognised() && (EncodingSays(g, 2) || HasVersion(g))
    ensures WriteSymbol(g).ideal.ended
  {
    var m := WriteMangledName(g, 0, INITIAL);
    if HasVersion(g) {
      EmitEnds(m.out, g.text[m.at.end..]);
    } else {
      EncodingEnds(g, 2, INITIAL);
    }
  }

  // ---------- the other direction ----------

  /** Nothing was ever written. */
  ghost predicate Blank(o: Out)
  {
    && o.append && o.ideal.text == "" && o.ideal.prev.NoName? && !o.ideal.ended
    && forall cells :: Play(o.log, cells) == Buffer(cells, 0, NoName, false)
  }

  lemma UndoBlank(o: Out, a: Out)
    requires Blank(o) && Blank(a)
    ensures Blank(Undo(o, a))
  {
    hide Play;
    forall cells ensures Play(Undo(o, a).log, cells) == Buffer(cells, 0, NoName, false) {
      PlayReturn(a.log, o.log, cells);
    }
  }

  lemma EmitNameBlank(o: Out)
    requires Blank(o)
    ensures Blank(EmitName(o))
  {
    hide Play;
    forall cells ensures Play(EmitName(o).log, cells) == Buffer(cells, 0, NoName, false) {
      PlayStep(o.log, Repeat, cells);
    }
  }

  /** The name of the symbol is a nested name, or one without a cast, a vendor operator or a substitution. */
  predicate PlainName(g: Grammar)
  {
    && |g.text| >= 2 && g.Name(2).Accept?
    && g.At(2) !in "ZS" && !g.At2(2, 'c', 'v') && !(g.At(2) == 'v' && IsDigit(g.At(3)))
  }

  lemma UnqualifiedStart(g: Grammar, i: nat)
    requires i <= |g.text| && g.UnqualifiedName(i).Accept?
    ensures g.At(i) !in "NSZ"
  {
  }

  /** An empty name writes nothing. */
  lemma SilentName(g: Grammar, o: Out)
    requires PlainName(g) && !NameSays(g, 2) && Blank(o)
    ensures Blank(WriteName(g, 2, o).out)
  {
    if g.NestedName(2).Accept? {
      EmptyNested(g, 2, o);
    } else {
      hide UnscopedSays, Grammar.UnscopedName, WriteUnscopedName;
      assert g.LocalName(2) == Reject;
      assert g.UnscopedName(2).Accept?;
      UnscopedStart(g);
      SilentUnscoped(g, 2, o);
      SilentTemplated(g, 2, o);
      SilentUnscoped(g, 2, WriteTemplatedName(g, 2, o).out);
    }
  }

  lemma UnscopedStart(g: Grammar)
    requires |g.text| >= 2 && g.At(2) != 'S' && g.UnscopedName(2).Accept?
    ensures g.At(2) !in "NSZ"
  {
    UnqualifiedStart(g, 2);
  }

  lemma SilentTemplated(g: Grammar, i: nat, o: Out)
    requires i <= |g.text| && g.UnscopedName(i).Accept? && g.TemplatedName(i).Reject?
    requires Blank(o) && Blank(WriteUnscopedName(g, i, o).out)
    ensures Blank(WriteTemplatedName(g, i, o).out)
  {
    UndoBlank(o, WriteUnscopedName(g, i, o).out);
    hide Blank, WriteUnscopedName, Grammar.UnscopedName, Grammar.TemplateArgs;
  }

  lemma EmptyNested(g: Grammar, i: nat, o: Out)
    requires i <= |g.text| && g.NestedName(i).Accept? && g.At(g.CvEnd(i + 1)) == 'E'
    ensures WriteNestedName(g, i, o) == Step(g.NestedName(i), o)
  {
    var k, p := g.CvEnd(i + 1), o.(nest := 0);
    NothingAt(g, k, p);
    assert WritePrefix(g, k, false, p) == Step(Accept(k), p);
  }

  lemma NothingAt(g: Grammar, i: nat, o: Out)
    requires i < |g.text| && g.text[i] == 'E'
    ensures WritePrefixItem(g, i, o) == Step(Reject, o)
  {
    assert WriteOperatorName(g, i, o) == Step(Reject, o);
    assert WriteUnqualifiedName(g, i, o) == Step(Reject, o);
    assert WriteUnscopedName(g, i, o) == Step(Reject, o);
  }

  lemma SilentUnscoped(g: Grammar, i: nat, o: Out)
    requires i <= |g.text| && g.UnscopedName(i).Accept? && !UnscopedSays(g, i) && Blank(o)
    requires g.At(i) != 'S' && !g.At2(i, 'c', 'v') && !(g.At(i) == 'v' && IsDigit(g.At(i + 1)))
    ensures Blank(WriteUnscopedName(g, i, o).out)
  {
    NoOperator(g, i, o);
    SilentRest(g, i, o);
    hide Blank, UnqualifiedSays, WriteUnqualifiedName, Grammar.UnqualifiedName;
  }

  lemma NoOperator(g: Grammar, i: nat, o: Out)
    requires i <= |g.text| && g.UnqualifiedName(i).Accept? && !UnqualifiedSays(g, i)
    requires !g.At2(i, 'c', 'v') && !(g.At(i) == 'v' && IsDigit(g.At(i + 1)))
    ensures WriteOperatorName(g, i, o) == Step(Reject, o)
  {
    assert OperatorSays(g, i);
  }

  lemma SilentRest(g: Grammar, i: nat, o: Out)
    requires i <= |g.text| && g.UnqualifiedName(i).Accept? && !UnqualifiedSays(g, i) && Blank(o)
    requires WriteOperatorName(g, i, o) == Step(Reject, o)
    ensures Blank(WriteUnqualifiedName(g, i, o).out)
  {
    hide WriteOperatorName, Grammar.OperatorName, OperatorSays;
    EmitNameBlank(o);
    hide Blank;
    assert Emit(o, "") == o;
    var c := WriteCtorDtorName(g, i, o);
    if c.at.Reject? && !g.SourceName(i).Accept? {
      assert WriteSourceName(g, i, o) == Step(g.SourceName(i), o);
      SilentSource(g, i + 1, o);
    } else if c.at.Reject? {
      SilentSource(g, i, o);
    }
  }

  lemma SilentSource(g: Grammar, i: nat, o: Out)
    requires i <= |g.text| && g.SourceName(i).Accept? && g.NumberValue(i) <= 0
    ensures WriteSourceName(g, i, o).out == o
  {
    var n, end := g.Number(i).end, g.SourceName(i).end;
    if n <= end { assert g.text[n..end] == ""; }
  }

  lemma NotAFunction(g: Grammar, i: nat, o: Out)
    requires i <= |g.text| && g.Name(i).Accept? && g.FunctionEncoding(i).Reject?
    ensures WriteFunctionEncoding(g, i, o) == Step(Reject, Undo(o, WriteName(g, i, o).out))
  {
    hide Grammar.Name, Grammar.BareFunctionType, WriteName;
  }

  lemma SilentSymbol(g: Grammar)
    requires g.Recognised() && PlainName(g) && !EncodingSays(g, 2) && !HasVersion(g)
    ensures Blank(WriteSymbol(g))
  {
    hide NameSays, Grammar.Name, Grammar.FunctionEncoding, WriteName, WriteFunctionEncoding, Blank;
    assert g.MangledName(0) == g.Encoding(2) && g.FunctionEncoding(2).Reject?;
    var f := WriteFunctionEncoding(g, 2, INITIAL);
    InitialBlank();
    SilentName(g, INITIAL);
    UndoBlank(INITIAL, WriteName(g, 2, INITIAL).out);
    NotAFunction(g, 2, INITIAL);
    SilentName(g, f.out);
    assert WriteMangledName(g, 0, INITIAL) == WriteEncoding(g, 2, INITIAL) == WriteName(g, 2, f.out);
  }

  /** For plain names the condition is exact; and if it fails, the buffer is not touched. */
  lemma PlainNameEndsExactlyWhen(g: Grammar)
    requires g.Recognised() && PlainName(g)
    ensures WriteSymbol(g).ideal.ended <==> EncodingSays(g, 2) || HasVersion(g)
    ensures !WriteSymbol(g).ideal.ended ==> Blank(WriteSymbol(g))
  {
    hide EncodingSays, HasVersion, WriteSymbol, PlainName, Grammar.Recognised;
    AcceptedPlainName(g);
    if EncodingSays(g, 2) || HasVersion(g) {
      SymbolEnds(g);
    } else {
      SilentSymbol(g);
    }
  }

  lemma AcceptedPlainName(g: Grammar)
    requires PlainName(g)
    ensures |g.text| >= 2
  {}

  lemma InitialBlank()
    ensures Blank(INITIAL)
  {}
}
