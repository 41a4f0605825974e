/** What the demangler accepts: one function for each nonterminal of the Itanium C++ ABI,
    section 5.1, in the order and with the backtracking of the C code.  A nonterminal sees
    only the mangled text and a start position. */
module DemangleGrammar {
  import opened Lists
  import opened MangledText

  /** What a nonterminal does at a position.  `Stray` is the one way out of the grammar: a
      <source-name> whose length is a negative number that leaves the cursor at or before the
      place where the name began. */
  datatype Outcome = Reject | Accept(end: nat) | Stray

  /** Ordered choice. */
  function Or(a: Outcome, b: Outcome): Outcome { if a.Reject? then b else a }

  datatype Grammar = Grammar(text: CString, operators: AbbrevTable, builtins: AbbrevTable, substitutions: AbbrevTable)
  {
    function At(i: nat): char { if i < |text| then text[i] else '\0' }

    predicate At2(i: nat, c0: char, c1: char) { At(i) == c0 && At(i + 1) == c1 }

    predicate Negative(i: nat) { At(i) == 'n' && IsDigit(At(i + 1)) }

    /** A negative number never occurs in the text. */
    ghost predicate Unsigned()
    {
      forall i :: 0 <= i < |text| ==> !Negative(i)
    }

    ghost predicate Advances(i: nat, r: Outcome)
    {
      && (r.Accept? ==> i < r.end <= |text|)
      && (Unsigned() ==> !r.Stray?)
    }

    ghost predicate Stays(i: nat, r: Outcome)
    {
      && (r.Accept? ==> i <= r.end <= |text|)
      && (Unsigned() ==> !r.Stray?)
    }

    /** One more character after an accepted prefix. */
    function Expect(a: Outcome, c: char): (r: Outcome)
      requires c != '\0'
      ensures r.Accept? <==> a.Accept? && At(a.end) == c
      ensures r.Accept? ==> r.end == a.end + 1 <= |text|
      ensures r.Stray? <==> a.Stray?
    {
      if !a.Accept? then a else if At(a.end) == c then Accept(a.end + 1) else Reject
    }

    // ---------- tokens ----------

    function RunEnd(i: nat, kind: CharKind): (e: nat)
      requires i <= |text|
      ensures i <= e <= |text|
      decreases |text| - i
    {
      if i < |text| && kind.Has(text[i]) then RunEnd(i + 1, kind) else i
    }

    function Run(i: nat, kind: CharKind): (r: Outcome)
      requires i <= |text|
      ensures Advances(i, r) && !r.Stray?
    {
      var e := RunEnd(i, kind);
      if e == i then Reject else Accept(e)
    }

    function SignEnd(i: nat): nat { if At(i) == 'n' then i + 1 else i }

    /** <number> ::= [n] <non-negative decimal integer> */
    function Number(i: nat): (r: Outcome)
      requires i <= |text|
      ensures Advances(i, r) && !r.Stray?
    {
      Run(SignEnd(i), Digits)
    }

    function NumberValue(i: nat): int
      requires i <= |text| && Number(i).Accept?
    {
      var b := SignEnd(i);
      var digits: int := DecimalValue(text[b..Number(i).end]);
      if b == i then digits else -digits
    }

    /** <source-name> ::= <positive length number> <identifier> */
    function SourceName(i: nat): (r: Outcome)
      requires i <= |text|
      ensures Advances(i, r)
    {
      var n := Number(i);
      if n.Reject? then Reject else
      assert At(i) == 'n' ==> Negative(i);
      var length := NumberValue(i);
      if length == -1 || n.end + length > |text| then Reject
      else if n.end + length <= i then Stray
      else Accept(n.end + length)
    }

    /** Where the loop over <abi-tag> ends, having read at least one.  A failed <abi-tag> leaves
        the cursor behind its 'B'. */
    function MoreAbiTags(i: nat): (r: Outcome)
      requires i <= |text|
      ensures Stays(i, r) && !r.Reject?
      decreases |text| - i
    {
      if At(i) != 'B' then Accept(i) else
      var a := SourceName(i + 1);
      if a.Accept? then MoreAbiTags(a.end) else if a.Reject? then Accept(i + 1) else a
    }

    /** <abi-tag> ::= B <source-name> */
    function AbiTag(i: nat): (r: Outcome)
      requires i <= |text|
      ensures Advances(i, r)
    {
      if At(i) == 'B' then SourceName(i + 1) else Reject
    }

    /** <abi-tags> ::= <abi-tag> [<abi-tags>] */
    function AbiTags(i: nat): (r: Outcome)
      requires i <= |text|
      ensures Advances(i, r)
    {
      var a := AbiTag(i);
      if a.Accept? then MoreAbiTags(a.end) else a
    }

    /** A name with its optional <abi-tags>. */
    function Tagged(a: Outcome): (r: Outcome)
      requires a.Accept? ==> a.end <= |text|
      ensures r.Accept? ==> a.Accept? && a.end <= r.end <= |text|
      ensures r.Reject? <==> a.Reject?
      ensures Unsigned() && !a.Stray? ==> !r.Stray?
    {
      if !a.Accept? then a else
      var t := AbiTags(a.end);
      if t.Reject? then a else t
    }

    /** <discriminator> ::= _ <(non-negative) number> */
    function Discriminator(i: nat): (r: Outcome)
      requires i <= |text|
      ensures Advances(i, r) && !r.Stray?
    {
      if At(i) == '_' then Number(i + 1) else Reject
    }

    function AfterDiscriminator(i: nat): (e: nat)
      requires i <= |text|
      ensures i <= e <= |text|
    {
      if Discriminator(i).Accept? then Discriminator(i).end else i
    }

    /** <local-source-name> ::= L <source-name> [<discriminator>] */
    function LocalSourceName(i: nat): (r: Outcome)
      requires i <= |text|
      ensures Advances(i, r)
    {
      if At(i) != 'L' then Reject else
      var a := SourceName(i + 1);
      if a.Accept? then Accept(AfterDiscriminator(a.end)) else a
    }

    /** <v-offset> ::= <(offset) number> _ <(virtual offset) number> */
    function VOffset(i: nat): (r: Outcome)
      requires i <= |text|
      ensures Advances(i, r) && !r.Stray?
    {
      var a := Expect(Number(i), '_');
      if a.Accept? then Number(a.end) else a
    }

    /** <call-offset> ::= h <nv-offset> _ | v <v-offset> _ */
    function CallOffset(i: nat): (r: Outcome)
      requires i <= |text|
      ensures Advances(i, r) && !r.Stray?
    {
      Or(if At(i) == 'h' then Expect(Number(i + 1), '_') else Reject,
         if At(i) == 'v' then Expect(VOffset(i + 1), '_') else Reject)
    }

    /** <ctor-dtor-name> ::= C1 | C2 | C3 | D0 | D1 | D2 */
    function CtorDtorName(i: nat): (r: Outcome)
      requires i <= |text|
      ensures Advances(i, r) && !r.Stray?
    {
      Or(if At(i) == 'C' && At(i + 1) in "123" then Accept(i + 2) else Reject,
         if At(i) == 'D' && At(i + 1) in "012" then Accept(i + 2) else Reject)
    }

    function CvEnd(i: nat): (e: nat)
      requires i <= |text|
      ensures i <= e <= |text|
    {
      var r := if At(i) == 'r' then i + 1 else i;
      var v := if At(r) == 'V' then r + 1 else r;
      if At(v) == 'K' then v + 1 else v
    }

    /** <CV-qualifiers> ::= [r] [V] [K], not empty */
    function CvQualifiers(i: nat): (r: Outcome)
      requires i <= |text|
      ensures Advances(i, r) && !r.Stray?
    {
      if CvEnd(i) > i then Accept(CvEnd(i)) else Reject
    }

    /** <builtin-type> ::= v, etc. | u <source-name> */
    function BuiltinType(i: nat): (r: Outcome)
      requires i <= |text|
      ensures Advances(i, r)
    {
      if i < |text| && FindChar(builtins, 0, At(i)).Some? then Accept(i + 1)
      else if At(i) == 'u' then SourceName(i + 1) else Reject
    }

    /** <template-param> ::= T_ | T <parameter-2 non-negative number> _ */
    function TemplateParam(i: nat): (r: Outcome)
      requires i <= |text|
      ensures Advances(i, r) && !r.Stray?
    {
      Or(if At2(i, 'T', '_') then Accept(i + 2) else Reject,
         if At(i) == 'T' then Expect(Number(i + 1), '_') else Reject)
    }

    /** <substitution> ::= S_ | S <seq-id> _ | St, etc. */
    function Substitution(i: nat): (r: Outcome)
      requires i <= |text|
      ensures Advances(i, r) && !r.Stray?
    {
      Or(if At2(i, 'S', '_') then Accept(i + 2) else Reject,
      Or(if At(i) == 'S' then Expect(Run(i + 1, SeqIdChars), '_') else Reject,
         if At(i) == 'S' && i + 1 < |text| && FindChar(substitutions, 1, At(i + 1)).Some?
         then Accept(i + 2) else Reject))
    }

    /** <template-template-param> ::= <template-param> | <substitution> */
    function TemplateTemplateParam(i: nat): (r: Outcome)
      requires i <= |text|
      ensures Advances(i, r) && !r.Stray?
    {
      Or(TemplateParam(i), Substitution(i))
    }

    // ---------- the mutually recursive nonterminals ----------

    /** <mangled-name> ::= _Z <encoding> */
    function MangledName(i: nat): (r: Outcome)
      requires i <= |text|
      ensures Advances(i, r)
      decreases |text| - i, 0
    {
      if At2(i, '_', 'Z') then Encoding(i + 2) else Reject
    }

    /** <encoding> ::= <(function) name> <bare-function-type> | <(data) name> | <special-name> */
    function Encoding(i: nat): (r: Outcome)
      requires i <= |text|
      ensures Advances(i, r)
      decreases |text| - i, 7
    {
      Or(FunctionEncoding(i), Or(Name(i), SpecialName(i)))
    }

    /** <(function) name> <bare-function-type> */
    function FunctionEncoding(i: nat): (r: Outcome)
      requires i <= |text|
      ensures Advances(i, r)
      decreases |text| - i, 6
    {
      var n := Name(i);
      if n.Accept? then BareFunctionType(n.end) else n
    }

    /** <name> ::= <nested-name> | <local-name> | <unscoped-template-name> <template-args> | <unscoped-name> */
    function Name(i: nat): (r: Outcome)
      requires i <= |text|
      ensures Advances(i, r)
      decreases |text| - i, 5
    {
      Or(NestedName(i), Or(LocalName(i), Or(TemplatedName(i), UnscopedName(i))))
    }

    /** <unscoped-template-name> <template-args> */
    function TemplatedName(i: nat): (r: Outcome)
      requires i <= |text|
      ensures Advances(i, r)
      decreases |text| - i, 4
    {
      var u := UnscopedTemplateName(i);
      if u.Accept? then TemplateArgs(u.end) else u
    }

    /** <unscoped-name> ::= <unqualified-name> | St <unqualified-name> */
    function UnscopedName(i: nat): (r: Outcome)
      requires i <= |text|
      ensures Advances(i, r)
      decreases |text| - i, 2
    {
      Or(UnqualifiedName(i), if At2(i, 'S', 't') then UnqualifiedName(i + 2) else Reject)
    }

    /** <unscoped-template-name> ::= <unscoped-name> | <substitution> */
    function UnscopedTemplateName(i: nat): (r: Outcome)
      requires i <= |text|
      ensures Advances(i, r)
      decreases |text| - i, 3
    {
      Or(UnscopedName(i), Substitution(i))
    }

    /** <nested-name> ::= N [<CV-qualifiers>] <prefix> E */
    function NestedName(i: nat): (r: Outcome)
      requires i <= |text|
      ensures Advances(i, r)
      decreases |text| - i, 0
    {
      if At(i) == 'N' then Expect(Prefix(CvEnd(i + 1), false), 'E') else Reject
    }

    /** One step of a <prefix>: <template-param> | <substitution> | <unscoped-name> */
    function PrefixItem(i: nat): (r: Outcome)
      requires i <= |text|
      ensures Advances(i, r)
      decreases |text| - i, 3
    {
      Or(TemplateParam(i), Or(Substitution(i), UnscopedName(i)))
    }

    /** The <prefix> loop; `has` says whether an item has been read since the loop was entered. */
    function Prefix(i: nat, has: bool): (r: Outcome)
      requires i <= |text|
      ensures Stays(i, r) && !r.Reject?
      decreases |text| - i, 4
    {
      var a := PrefixItem(i);
      if a.Accept? then Prefix(a.end, true)
      else if a.Stray? then a
      else if has then PrefixArgs(i) else Accept(i)
    }

    /** No further item was found: <template-args> and the loop again, or the end. */
    function PrefixArgs(i: nat): (r: Outcome)
      requires i <= |text|
      ensures Stays(i, r) && !r.Reject?
      decreases |text| - i, 1
    {
      var t := TemplateArgs(i);
      if t.Accept? then Prefix(t.end, false) else if t.Stray? then t else Accept(i)
    }

    /** <unqualified-name> ::= <operator-name> | <ctor-dtor-name>
                            | <source-name> [<abi-tags>] | <local-source-name> [<abi-tags>] */
    function UnqualifiedName(i: nat): (r: Outcome)
      requires i <= |text|
      ensures Advances(i, r)
      decreases |text| - i, 1
    {
      Or(OperatorName(i), Or(CtorDtorName(i), Or(Tagged(SourceName(i)), Tagged(LocalSourceName(i)))))
    }

    /** <operator-name> ::= nw, and other two letters cases | cv <type> | v <digit> <source-name> */
    function OperatorName(i: nat): (r: Outcome)
      requires i <= |text|
      ensures Advances(i, r)
      decreases |text| - i, 0
    {
      if i + 2 > |text| then Reject else
      Or(if At2(i, 'c', 'v') then Type(i + 2) else Reject,
      Or(if At(i) == 'v' && IsDigit(At(i + 1)) then SourceName(i + 2) else Reject,
         OperatorSymbol(i)))
    }

    /** An operator of the table, which starts with a lower-case letter followed by a letter. */
    function OperatorSymbol(i: nat): (r: Outcome)
      requires i + 2 <= |text|
      ensures Advances(i, r) && !r.Stray?
    {
      if IsLower(At(i)) && IsAlpha(At(i + 1)) && FindPair(operators, At(i), At(i + 1)).Some?
      then Accept(i + 2) else Reject
    }

    /** <special-name> */
    function SpecialName(i: nat): (r: Outcome)
      requires i <= |text|
      ensures Advances(i, r)
      decreases |text| - i, 1
    {
      Or(if At(i) == 'T' && At(i + 1) in "VTIS" then Type(i + 2) else Reject,
      Or(if At2(i, 'T', 'c') then Offsets2Encoding(i + 2) else Reject,
      Or(if At2(i, 'G', 'V') then Name(i + 2) else Reject,
      Or(if At(i) == 'T' then OffsetEncoding(i + 1) else Reject,
         GnuSpecialName(i)))))
    }

    /** The G++ extensions of <special-name>. */
    function GnuSpecialName(i: nat): (r: Outcome)
      requires i <= |text|
      ensures Advances(i, r)
      decreases |text| - i, 0
    {
      Or(if At2(i, 'T', 'C') then ConstructionVtable(i + 2) else Reject,
      Or(if At(i) == 'T' && At(i + 1) in "FJ" then Type(i + 2) else Reject,
      Or(if At2(i, 'G', 'R') then Name(i + 2) else Reject,
      Or(if At2(i, 'G', 'A') then Encoding(i + 2) else Reject,
         if At(i) == 'T' && At(i + 1) in "hv" then OffsetEncoding(i + 2) else Reject))))
    }

    /** <call-offset> <(base) encoding> */
    function OffsetEncoding(i: nat): (r: Outcome)
      requires i <= |text|
      ensures Advances(i, r)
      decreases |text| - i, 8
    {
      var a := CallOffset(i);
      if a.Accept? then Encoding(a.end) else a
    }

    /** <call-offset> <call-offset> <(base) encoding> */
    function Offsets2Encoding(i: nat): (r: Outcome)
      requires i <= |text|
      ensures Advances(i, r)
      decreases |text| - i, 9
    {
      var a := CallOffset(i);
      if a.Accept? then OffsetEncoding(a.end) else a
    }

    /** <type> <(offset) number> _ <(base) type> */
    function ConstructionVtable(i: nat): (r: Outcome)
      requires i <= |text|
      ensures Advances(i, r)
      decreases |text| - i, 7
    {
      var a := Type(i);
      if !a.Accept? then a else
      var b := Expect(Number(a.end), '_');
      if !b.Accept? then b else Type(b.end)
    }

    /** <type> */
    function Type(i: nat): (r: Outcome)
      requires i <= |text|
      ensures Advances(i, r)
      decreases |text| - i, 6
    {
      Or(ModifiedType(i),
      Or(BuiltinType(i), Or(FunctionType(i), Or(Name(i), Or(ArrayType(i), Or(PointerToMemberType(i),
      Or(Substitution(i), Or(TemplatedParam(i), TemplateParam(i)))))))))
    }

    /** The alternatives of <type> that wrap another type or an expression. */
    function ModifiedType(i: nat): (r: Outcome)
      requires i <= |text|
      ensures Advances(i, r)
      decreases |text| - i, 1
    {
      Or(QualifiedType(i),
      Or(if At(i) in "OPRCG" then Type(i + 1) else Reject, ExtendedType(i)))
    }

    /** Dp <type> | Dt <expression> E | DT <expression> E | U <source-name> <type> */
    function ExtendedType(i: nat): (r: Outcome)
      requires i <= |text|
      ensures Advances(i, r)
      decreases |text| - i, 0
    {
      Or(if At2(i, 'D', 'p') then Type(i + 2) else Reject,
      Or(if At(i) == 'D' && At(i + 1) in "tT" then Expect(Expression(i + 2), 'E') else Reject,
         if At(i) == 'U' then VendorType(i + 1) else Reject))
    }

    /** <CV-qualifiers> <type> */
    function QualifiedType(i: nat): (r: Outcome)
      requires i <= |text|
      ensures Advances(i, r)
      decreases |text| - i, 0
    {
      var cv := CvQualifiers(i);
      if cv.Accept? then Type(cv.end) else cv
    }

    /** <source-name> <type>: the rest of a vendor extended type qualifier */
    function VendorType(i: nat): (r: Outcome)
      requires i <= |text|
      ensures Advances(i, r)
      decreases |text| - i, 7
    {
      var a := SourceName(i);
      if a.Accept? then Type(a.end) else a
    }

    /** <template-template-param> <template-args> */
    function TemplatedParam(i: nat): (r: Outcome)
      requires i <= |text|
      ensures Advances(i, r)
      decreases |text| - i, 0
    {
      var p := TemplateTemplateParam(i);
      if p.Accept? then TemplateArgs(p.end) else p
    }

    /** <function-type> ::= F [Y] <bare-function-type> E */
    function FunctionType(i: nat): (r: Outcome)
      requires i <= |text|
      ensures Advances(i, r)
      decreases |text| - i, 0
    {
      if At(i) == 'F' then Expect(BareFunctionType(if At(i + 1) == 'Y' then i + 2 else i + 1), 'E') else Reject
    }

    /** <bare-function-type> ::= <(signature) type>+ */
    function BareFunctionType(i: nat): (r: Outcome)
      requires i <= |text|
      ensures Advances(i, r)
      decreases |text| - i, 7
    {
      var a := Type(i);
      if a.Accept? then MoreTypes(a.end) else a
    }

    /** <type>* */
    function MoreTypes(i: nat): (r: Outcome)
      requires i <= |text|
      ensures Stays(i, r) && !r.Reject?
      decreases |text| - i, 7
    {
      var a := Type(i);
      if a.Accept? then MoreTypes(a.end) else if a.Reject? then Accept(i) else a
    }

    /** <array-type> ::= A <(positive dimension) number> _ <type> | A [<(dimension) expression>] _ <type> */
    function ArrayType(i: nat): (r: Outcome)
      requires i <= |text|
      ensures Advances(i, r)
      decreases |text| - i, 0
    {
      if At(i) == 'A' then Or(NumberedArray(i + 1), ExpressionArray(i + 1)) else Reject
    }

    function NumberedArray(i: nat): (r: Outcome)
      requires i <= |text|
      ensures Advances(i, r)
      decreases |text| - i, 7
    {
      var n := Expect(Number(i), '_');
      if n.Accept? then Type(n.end) else n
    }

    function ExpressionArray(i: nat): (r: Outcome)
      requires i <= |text|
      ensures Advances(i, r)
      decreases |text| - i, 7
    {
      var e := Expression(i);
      var d := Expect(if e.Reject? then Accept(i) else e, '_');
      if d.Accept? then Type(d.end) else d
    }

    /** <pointer-to-member-type> ::= M <(class) type> <(member) type> */
    function PointerToMemberType(i: nat): (r: Outcome)
      requires i <= |text|
      ensures Advances(i, r)
      decreases |text| - i, 0
    {
      if At(i) != 'M' then Reject else
      var a := Type(i + 1);
      if a.Accept? then Type(a.end) else a
    }

    /** <template-args> ::= I <template-arg>+ E */
    function TemplateArgs(i: nat): (r: Outcome)
      requires i <= |text|
      ensures Advances(i, r)
      decreases |text| - i, 0
    {
      if At(i) == 'I' then Expect(TemplateArgList(i + 1), 'E') else Reject
    }

    /** <template-arg>+ */
    function TemplateArgList(i: nat): (r: Outcome)
      requires i <= |text|
      ensures Advances(i, r)
      decreases |text| - i, 8
    {
      var a := TemplateArg(i);
      if a.Accept? then MoreTemplateArgs(a.end) else a
    }

    /** <template-arg>* */
    function MoreTemplateArgs(i: nat): (r: Outcome)
      requires i <= |text|
      ensures Stays(i, r) && !r.Reject?
      decreases |text| - i, 8
    {
      var a := TemplateArg(i);
      if a.Accept? then MoreTemplateArgs(a.end) else if a.Reject? then Accept(i) else a
    }

    /** <template-arg> ::= <type> | <expr-primary> | I <template-arg>* E | J <template-arg>* E | X <expression> E */
    function TemplateArg(i: nat): (r: Outcome)
      requires i <= |text|
      ensures Advances(i, r)
      decreases |text| - i, 7
    {
      Or(if At(i) == 'I' || At(i) == 'J' then Expect(MoreTemplateArgs(i + 1), 'E') else Reject,
      Or(Type(i), Or(ExprPrimary(i),
         if At(i) == 'X' then Expect(Expression(i + 1), 'E') else Reject)))
    }

    /** <expression> */
    function Expression(i: nat): (r: Outcome)
      requires i <= |text|
      ensures Advances(i, r)
      decreases |text| - i, 2
    {
      Or(TemplateParam(i), Or(ExprPrimary(i),
      Or(Operation(i, 3), Or(Operation(i, 2), Or(Operation(i, 1),
      Or(if At2(i, 's', 't') then Type(i + 2) else Reject,
         if At2(i, 's', 'r') then Or(ScopedTemplate(i + 2), ScopedName(i + 2)) else Reject))))))
    }

    /** <operator-name> and `count` expressions */
    function Operation(i: nat, count: nat): (r: Outcome)
      requires i <= |text|
      ensures Advances(i, r)
      decreases |text| - i, 1
    {
      var op := OperatorName(i);
      if op.Accept? then Expressions(op.end, count) else op
    }

    /** Exactly `count` expressions */
    function Expressions(i: nat, count: nat): (r: Outcome)
      requires i <= |text|
      ensures Stays(i, r)
      decreases |text| - i, 3
    {
      if count == 0 then Accept(i) else
      var e := Expression(i);
      if e.Accept? then Expressions(e.end, count - 1) else e
    }

    /** <type> <unqualified-name> */
    function ScopedName(i: nat): (r: Outcome)
      requires i <= |text|
      ensures Advances(i, r)
      decreases |text| - i, 7
    {
      var a := Type(i);
      if a.Accept? then UnqualifiedName(a.end) else a
    }

    /** <type> <unqualified-name> <template-args> */
    function ScopedTemplate(i: nat): (r: Outcome)
      requires i <= |text|
      ensures Advances(i, r)
      decreases |text| - i, 8
    {
      var a := ScopedName(i);
      if a.Accept? then TemplateArgs(a.end) else a
    }

    /** <expr-primary> ::= L <type> <(value) number> E | L <type> <(value) float> E
                        | L <mangled-name> E | LZ <encoding> E */
    function ExprPrimary(i: nat): (r: Outcome)
      requires i <= |text|
      ensures Advances(i, r)
      decreases |text| - i, 0
    {
      if At(i) != 'L' then Reject else
      Or(Literal(i + 1, false), Or(Literal(i + 1, true),
      Or(Expect(MangledName(i + 1), 'E'),
         if At(i + 1) == 'Z' then Expect(Encoding(i + 2), 'E') else Reject)))
    }

    /** <type> <value> E, where the value is a number or a float */
    function Literal(i: nat, float: bool): (r: Outcome)
      requires i <= |text|
      ensures Advances(i, r)
      decreases |text| - i, 7
    {
      var t := Type(i);
      Expect(if !t.Accept? then t else if float then Run(t.end, FloatChars) else Number(t.end), 'E')
    }

    /** <local-name> ::= Z <(function) encoding> E <(entity) name> [<discriminator>]
                      | Z <(function) encoding> E s [<discriminator>] */
    function LocalName(i: nat): (r: Outcome)
      requires i <= |text|
      ensures Advances(i, r)
      decreases |text| - i, 0
    {
      if At(i) == 'Z' then Or(LocalEntity(i + 1), LocalString(i + 1)) else Reject
    }

    function LocalEntity(i: nat): (r: Outcome)
      requires i <= |text|
      ensures Advances(i, r)
      decreases |text| - i, 8
    {
      var e := Expect(Encoding(i), 'E');
      if e.Accept? then EntityName(e.end) else e
    }

    /** <(entity) name> [<discriminator>] */
    function EntityName(i: nat): (r: Outcome)
      requires i <= |text|
      ensures Advances(i, r)
      decreases |text| - i, 6
    {
      var n := Name(i);
      if n.Accept? then Accept(AfterDiscriminator(n.end)) else n
    }

    function LocalString(i: nat): (r: Outcome)
      requires i <= |text|
      ensures Advances(i, r)
      decreases |text| - i, 8
    {
      var s := Expect(Expect(Encoding(i), 'E'), 's');
      if s.Accept? then Accept(AfterDiscriminator(s.end)) else s
    }

    // ---------- the whole symbol ----------

    /** (.<alpha>+.<digit>+)* up to the end of the text, read as IsFunctionCloneSuffix does. */
    predicate CloneSuffix(i: nat)
      requires i <= |text|
      decreases |text| - i
    {
      i == |text| ||
      (At(i) == '.' && IsAlpha(At(i + 1)) &&
       var a := RunEnd(i + 2, Letters);
       At(a) == '.' && IsDigit(At(a + 1)) && CloneSuffix(RunEnd(a + 2, Digits)))
    }

    /** The symbols that ParseTopLevelMangledName accepts. */
    predicate Recognised()
    {
      var m := MangledName(0);
      m.Accept? && (CloneSuffix(m.end) || At(m.end) == '@')
    }
  }
}
