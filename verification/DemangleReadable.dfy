/** What is written for mangled types and names is their readable form. */
module DemangleReadable {
  import opened Lists
  import opened MangledText
  import opened DemangleGrammar
  import opened DemangleOutput
  import opened DemangleReading
  import opened DemangleNames
  import opened DemangleTables
  import opened Mangling
  import Fit = DemangleFit

  // ---------- texts ----------

  /** The text so far.  It was longer only by a separator, and nothing longer than `w` was abandoned. */
  ghost predicate Shows(o: Out, text: string, w: nat)
  {
    && o.ideal.text == text && o.ideal.need <= |text| + 2 && o.ideal.waste <= w
    && o.append && Fit.Sound(o.ideal)
  }

  /** No text between `o` and `u` was longer than that of `u`, or of `o` before. */
  predicate Direct(o: Out, u: Out) { u.ideal.need == Max(o.ideal.need, |u.ideal.text|) && u.nest == o.nest }

  /** No space comes between the text and the string. */
  predicate Joins(text: string, str: string)
  {
    str == "" || str[0] != '<' || text == "" || text[|text| - 1] != '<'
  }

  lemma EmitShows(o: Out, text: string, w: nat, str: string)
    requires Shows(o, text, w) && Joins(text, str)
    ensures Shows(Emit(o, str), text + str, w) && Direct(o, Emit(o, str))
    ensures str != "" ==> Emit(o, str).ideal.ended
  {
    if str == "" {
      assert text + "" == text;
    } else {
      Fit.EmitSound(o.ideal, str);
      Fit.EmitText(o.ideal, str);
      assert "" + str == str;
    }
  }

  lemma DirectBoth(o: Out, u: Out, v: Out)
    requires Direct(o, u) && Direct(u, v) && |u.ideal.text| <= |v.ideal.text|
    ensures Direct(o, v)
  {}

  /** Two characters make up for a cancelled separator. */
  lemma EmitTwo(o: Out, text: string, w: nat, str: string)
    requires Shows(o, text, w) && Joins(text, str) && |str| == 2
    ensures Emit(o, str).ideal.need == |text + str|
  {
    EmitShows(o, text, w, str);
  }

  /** An identifier becomes the previous name. */
  lemma EmitNamed(o: Out, text: string, w: nat, str: string)
    requires Shows(o, text, w) && str != "" && (IsAlpha(str[0]) || str[0] == '_')
    ensures PrevName(Emit(o, str)) == str
  {
    Fit.EmitText(o.ideal, str);
    assert "" + str == str;
    assert (text + str)[|text|..|text| + |str|] == str;
  }

  /** Other text leaves the previous name alone. */
  lemma EmitOther(o: Out, text: string, w: nat, str: string)
    requires Shows(o, text, w) && Joins(text, str) && (str == "" || !(IsAlpha(str[0]) || str[0] == '_'))
    ensures PrevName(Emit(o, str)) == PrevName(o)
  {
    var prev := o.ideal.prev;
    if str != "" && prev.Span? {
      Fit.EmitText(o.ideal, str);
      assert "" + str == str;
      assert (text + str)[prev.start..prev.start + prev.length] == text[prev.start..prev.start + prev.length];
    }
  }

  lemma SeparatorCancelled(o: Out, text: string, w: nat)
    requires Shows(o, text, w) && o.nest >= 1
    ensures var r := Cancel(Separate(o));
      Shows(r, text, w) && r.nest == o.nest && PrevName(r) == PrevName(o) && r.ideal.ended
  {
    EmitShows(o, text, w, "::");
    assert (text + "::")[..|text|] == text;
  }

  lemma UndoShows(o: Out, text: string, u: Out, longer: string, w: nat)
    requires Shows(o, text, w) && Shows(u, longer, w) && |text| <= |longer|
    requires if Direct(o, u) then |longer| <= w else |longer| + 2 <= w
    ensures Shows(Undo(o, u), text, w) && Undo(o, u).nest == o.nest && Undo(o, u).ideal.need == o.ideal.need
  {}

  lemma NestShows(o: Out, text: string, w: nat, nest: int)
    ensures Shows(o.(nest := nest), text, w) == Shows(o, text, w) && PrevName(o.(nest := nest)) == PrevName(o)
  {}

  lemma DeepenShows(o: Out, text: string, w: nat)
    ensures Shows(Deepen(o), text, w) == Shows(o, text, w) && PrevName(Deepen(o)) == PrevName(o)
    ensures o.nest >= 0 ==> Deepen(o).nest == o.nest + 1
  {}

  lemma ShownIs(id: string)
    requires IsIdentifier(id)
    ensures Shown(id) == IdReadable(id) != "" && Shown(id)[0] != '<'
    ensures Shown(id) == id ==> IsAlpha(id[0]) || id[0] == '_'
    ensures id[|id| - 1] != '<' ==> Shown(id)[|Shown(id)| - 1] != '<'
  {
    assert |id| > 11 ==> (AnonymousPrefix <= id <==> id[..11] == AnonymousPrefix);
  }

  // ---------- the tables ----------

  lemma BuiltinNames(code: char)
    requires IsBuiltin(code)
    ensures BuiltinReadable(code) != "" && BuiltinReadable(code)[0] != '<'
  {
    BuiltinCodes(code);
    hide FindChar, IsBuiltin;
    assert |BUILTIN_TYPES| == 21;
    assert forall k :: 0 <= k < 21 ==> BUILTIN_TYPES[k].realName != "" && BUILTIN_TYPES[k].realName[0] != '<';
  }

  lemma StandardNames(code: char)
    ensures var name := StandardName(code);
      name == "" || (IsIdentifier(name) && name[|name| - 1] != '<' && IsAlpha(name[0]))
  {
    hide FindChar;
    assert forall p :: p in SUBSTITUTIONS ==>
      p.realName == "" || (IsAlpha(p.realName[0]) && p.realName[|p.realName| - 1] != '<' && '\0' !in p.realName);
  }

  // ---------- what stands for something else ----------

  lemma PlaceWritten(o: Out, text: string, w: nat, place: Place)
    requires Shows(o, text, w)
    ensures var r := PlaceOut(o, place);
      && Shows(r, text + PlaceReadable(place), w) && Direct(o, r) && r.ideal.ended
      && (place.Standard? && StandardName(place.code) != "" ==> PrevName(r) == StandardName(place.code))
    ensures Joins(text + PlaceReadable(place), "<>") && PlaceReadable(place) != ""
  {
    hide Emit, StandardName, Shows, Direct, PrevName;
    if place.Standard? {
      StandardWritten(o, text, w, place.code);
    } else {
      EmitShows(o, text, w, "?");
    }
  }

  lemma StandardWritten(o: Out, text: string, w: nat, code: char)
    requires Shows(o, text, w)
    ensures var r, name := WriteAbbreviation(StandardName(code), o), StandardName(code);
      && Shows(r, text + PlaceReadable(Standard(code)), w) && Direct(o, r) && r.ideal.ended
      && (name != "" ==> PrevName(r) == name)
    ensures Joins(text + PlaceReadable(Standard(code)), "<>")
  {
    hide Emit, StandardName, Shows, Direct, PrevName, IsIdentifier;
    StandardNames(code);
    var name := StandardName(code);
    var s := Emit(o, "std");
    EmitShows(o, text, w, "std");
    if name == "" {
      assert text + "std" == text + ("std" + "");
    } else {
      var c := Emit(s, "::");
      EmitShows(s, text + "std", w, "::");
      EmitShows(c, text + "std" + "::", w, name);
      EmitNamed(c, text + "std" + "::", w, name);
      assert text + "std" + "::" + name == text + ("std" + ("::" + name));
      DirectThree(o, s, c, Emit(c, name), text, name, w);
    }
  }

  lemma DirectThree(o: Out, s: Out, c: Out, r: Out, text: string, name: string, w: nat)
    requires Direct(o, s) && Direct(s, c) && Direct(c, r)
    requires Shows(s, text + "std", w) && Shows(c, text + "std" + "::", w) && Shows(r, text + "std" + "::" + name, w)
    ensures Direct(o, r)
  {}

  lemma PlacedWritten(o: Out, text: string, w: nat, place: Place, templated: bool)
    requires Shows(o, text, w)
    requires |text + (PlaceReadable(place) + if templated then "<>" else "")| <= w
    ensures var r := PlacedOut(o, place, templated);
      && Shows(r, text + (PlaceReadable(place) + if templated then "<>" else ""), w)
      && r.nest == o.nest && r.ideal.ended
  {
    hide Emit, Undo, PlaceOut, PlaceReadable, Shows, Direct;
    var u, t := PlaceOut(o, place), text + PlaceReadable(place);
    PlaceWritten(o, text, w, place);
    DirectNest(o, u);
    if templated {
      EmitShows(u, t, w, "<>");
      DirectNest(u, Emit(u, "<>"));
      assert t + "<>" == text + (PlaceReadable(place) + "<>");
    } else {
      UndoShows(o, text, u, t, w);
      PlaceWritten(Undo(o, u), text, w, place);
      DirectNest(Undo(o, u), PlaceOut(Undo(o, u), place));
      assert t == text + (PlaceReadable(place) + "");
    }
  }

  lemma DirectNest(o: Out, u: Out)
    requires Direct(o, u)
    ensures u.nest == o.nest
  {}

  // ---------- parts of names ----------

  /** The separator in front of a part: none in front of the first. */
  function Sep(nest: int): string { if nest >= 1 then "::" else "" }

  lemma SeparateShows(o: Out, text: string, w: nat)
    requires Shows(o, text, w)
    ensures Shows(Separate(o), text + Sep(o.nest), w) && Separate(o).nest == o.nest
    ensures PrevName(Separate(o)) == PrevName(o)
  {
    if o.nest >= 1 {
      EmitShows(o, text, w, "::");
      EmitOther(o, text, w, "::");
    } else {
      assert text + "" == text;
    }
  }

  /** A part without its template arguments. */
  function PartReadable(item: Item): string
  {
    match item
    case Identifier(_, id, _, _) => IdReadable(id)
    case Stand(place, _) => PlaceReadable(place)
  }

  /** A constructor of the part would be called by the previous name. */
  ghost predicate Recalls(o: Out, item: Item)
  {
    IsIdentifier(OwnName(item)) && IdReadable(OwnName(item)) == OwnName(item) ==> PrevName(o) == OwnName(item)
  }

  lemma IdWritten(o: Out, text: string, w: nat, id: string)
    requires Shows(o, text, w) && IsIdentifier(id)
    ensures Shows(Emit(o, Shown(id)), text + IdReadable(id), w) && Direct(o, Emit(o, Shown(id)))
    ensures Emit(o, Shown(id)).ideal.ended && IdReadable(id) != ""
    ensures IdReadable(id) == id ==> PrevName(Emit(o, Shown(id))) == id
  {
    hide Emit, Shown, IdReadable, Shows, Direct, PrevName;
    ShownIs(id);
    EmitShows(o, text, w, Shown(id));
    if Shown(id) == id { EmitNamed(o, text, w, id); }
  }

  lemma HeadWritten(o: Out, text: string, w: nat, item: Item)
    requires Shows(o, text, w) && o.nest >= 0 && WfItem(item)
    ensures var r := AfterHead(o, item);
      Shows(r, text + Sep(o.nest) + PartReadable(item), w) && r.nest == o.nest + 1 && Recalls(r, item)
  {
    hide Emit, Separate, Deepen, Shown, PlaceOut, IdReadable, PlaceReadable, Shows, Direct, PrevName, WfArgs,
         WfPlace, IsIdentifier, StandardName;
    var s, t := Separate(o), text + Sep(o.nest);
    SeparateShows(o, text, w);
    match item {
      case Identifier(_, id, _, _) =>
        IdWritten(s, t, w, id);
        DirectNest(s, Emit(s, Shown(id)));
        DeepenShows(Emit(s, Shown(id)), t + IdReadable(id), w);
      case Stand(place, _) =>
        PlaceWritten(s, t, w, place);
        DirectNest(s, PlaceOut(s, place));
        DeepenShows(PlaceOut(s, place), t + PlaceReadable(place), w);
        NoIdentifier();
    }
  }

  lemma NoIdentifier()
    ensures !IsIdentifier("")
  {}

  lemma ItemWritten(o: Out, text: string, w: nat, item: Item)
    requires Shows(o, text, w) && o.nest >= 0 && WfItem(item)
    ensures var r := AfterItem(o, item);
      Shows(r, text + Sep(o.nest) + ItemReadable(item), w) && r.nest >= 1 && Recalls(r, item)
  {
    hide Emit, Separate, Cancel, AfterHead, PartReadable, Shows, Direct, PrevName, OwnName, IdReadable, WfItem,
         IsIdentifier;
    var head := AfterHead(o, item);
    var t := text + Sep(o.nest) + PartReadable(item);
    HeadWritten(o, text, w, item);
    ItemReadableIs(item);
    if item.args == [] {
      assert PartReadable(item) + "" == PartReadable(item);
    } else {
      var c := Cancel(Separate(head));
      SeparatorCancelled(head, t, w);
      NoAngle(text + Sep(o.nest), item);
      EmitShows(c, t, w, "<>");
      DirectNest(c, Emit(c, "<>"));
      EmitOther(c, t, w, "<>");
      assert t + "<>" == text + Sep(o.nest) + (PartReadable(item) + "<>");
    }
  }

  lemma ItemReadableIs(item: Item)
    ensures ItemReadable(item) == PartReadable(item) + if item.args == [] then "" else "<>"
  {
    hide IdReadable, PlaceReadable;
  }

  lemma NoAngle(text: string, item: Item)
    requires WfItem(item) && item.args != []
    ensures Joins(text + PartReadable(item), "<>")
  {
    hide WfArgs, WfPlace, IdReadable, StandardName;
    match item {
      case Identifier(_, id, _, _) => ShownIs(id);
      case Stand(place, _) => if place.Standard? { StandardNames(place.code); }
    }
  }

  lemma {:induction false} ItemsWritten(o: Out, text: string, w: nat, items: seq<Item>)
    requires Shows(o, text, w) && o.nest >= 1 && WfItems(items)
    ensures var r := AfterItems(o, items);
      && Shows(r, text + Continued(items), w) && r.nest >= 1
      && (items == [] ==> r == o) && (items != [] ==> Recalls(r, items[|items| - 1]))
    decreases |items|
  {
    hide AfterItem, Recalls, Shows, ItemReadable, WfItem;
    if items == [] {
      assert text + Continued(items) == text;
    } else {
      var o' := AfterItem(o, items[0]);
      var text' := text + "::" + ItemReadable(items[0]);
      ItemWritten(o, text, w, items[0]);
      ItemsWritten(o', text', w, items[1..]);
      assert text' + Continued(items[1..]) == text + Continued(items);
    }
  }

  lemma NamesWritten(o: Out, text: string, w: nat, items: seq<Item>)
    requires Shows(o, text, w) && o.nest == 0 && items != [] && WfItems(items)
    ensures var r := AfterItems(o, items);
      Shows(r, text + Joined(items), w) && r.nest >= 1 && Recalls(r, items[|items| - 1])
  {
    hide AfterItem, Recalls, Shows, ItemReadable, WfItem;
    ItemWritten(o, text, w, items[0]);
    assert text + "" + ItemReadable(items[0]) == text + ItemReadable(items[0]);
    ItemsWritten(AfterItem(o, items[0]), text + ItemReadable(items[0]), w, items[1..]);
    assert text + ItemReadable(items[0]) + Continued(items[1..]) == text + Joined(items);
  }

  // ---------- operators, constructors and destructors ----------

  lemma SymbolWritten(o: Out, text: string, w: nat, symbol: string)
    requires Shows(o, text, w)
    ensures var r := EmitOperator(o, symbol);
      && Shows(r, text + ("operator" + (if symbol != "" && IsLower(symbol[0]) then " " else "") + symbol), w)
      && Direct(o, r) && r.ideal.ended
  {
    hide Emit;
    var o1 := Emit(o, "operator");
    var o2 := if symbol != "" && IsLower(symbol[0]) then Emit(o1, " ") else o1;
    var space := if symbol != "" && IsLower(symbol[0]) then " " else "";
    EmitShows(o, text, w, "operator");
    if space != "" {
      EmitShows(o1, text + "operator", w, " ");
    } else {
      assert text + "operator" + "" == text + "operator";
    }
    EmitShows(o2, text + "operator" + space, w, symbol);
    if symbol == "" { assert text + "operator" + "" + "" == text + "operator"; EmitNothing(o2); }
    assert text + "operator" + space + symbol == text + ("operator" + space + symbol);
  }

  lemma EmitNothing(o: Out)
    ensures Emit(o, "") == o
  {}

  lemma OperatorWritten(o: Out, text: string, w: nat, c0: char, c1: char)
    requires Shows(o, text, w)
    ensures var r := EmitOperator(o, SymbolOf(c0, c1));
      Shows(r, text + OperatorReadable(c0, c1), w) && Direct(o, r) && r.ideal.ended
  {
    hide FindPair, EmitOperator, Shows, Direct;
    SymbolWritten(o, text, w, SymbolOf(c0, c1));
  }

  lemma EmitNameShows(o: Out, text: string, w: nat)
    requires Shows(o, text, w) && Joins(text, PrevName(o))
    ensures Shows(EmitName(o), text + PrevName(o), w) && EmitName(o).nest == o.nest
  {
    EmitShows(o, text, w, PrevName(o));
  }

  lemma StructorWritten(o: Out, text: string, w: nat, tilde: string, last: string)
    requires Shows(o, text, w) && o.nest >= 1 && PrevName(o) == last && IsIdentifier(last) && tilde in ["", "~"]
    ensures var r := Deepen(EmitName(Emit(Separate(o), tilde)));
      Shows(r, text + ("::" + tilde + last), w) && r.nest >= 1
  {
    hide Emit, EmitName, Separate, Deepen, Shows, Direct, PrevName;
    var s := Separate(o);
    SeparateShows(o, text, w);
    EmitShows(s, text + "::", w, tilde);
    DirectNest(s, Emit(s, tilde));
    EmitOther(s, text + "::", w, tilde);
    EmitNameShows(Emit(s, tilde), text + "::" + tilde, w);
    DeepenShows(EmitName(Emit(s, tilde)), text + "::" + tilde + last, w);
    assert text + "::" + tilde + last == text + ("::" + tilde + last);
  }

  lemma {:induction false} KindWritten(o: Out, text: string, w: nat, kind: Kind, last: string)
    requires Shows(o, text, w) && o.nest >= 1 && WfKind(kind, last) && |text + KindReadable(kind, last)| <= w
    requires IsIdentifier(last) && IdReadable(last) == last ==> PrevName(o) == last
    ensures var r := AfterKind(o, kind); Shows(r, text + KindReadable(kind, last), w) && r.nest >= 1
    decreases kind
  {
    hide Emit, EmitName, EmitOperator, Separate, Deepen, Shows, Direct, PrevName, OperatorReadable, SymbolOf,
         IdReadable, IsOperator, IsIdentifier, Shown, TyOut, TyReadable, WfTy;
    match kind {
      case Ordinary => assert text + "" == text;
      case Constructor(_) =>
        StructorWritten(o, text, w, "", last);
        assert "::" + "" + last == "::" + last;
      case Destructor(_) =>
        StructorWritten(o, text, w, "~", last);
        assert "::" + "~" + last == "::~" + last;
      case Operator(c0, c1) =>
        var r := EmitOperator(Separate(o), SymbolOf(c0, c1));
        SeparateShows(o, text, w);
        OperatorWritten(Separate(o), text + "::", w, c0, c1);
        DirectNest(Separate(o), r);
        DeepenShows(r, text + "::" + OperatorReadable(c0, c1), w);
        assert text + "::" + OperatorReadable(c0, c1) == text + ("::" + OperatorReadable(c0, c1));
      case VendorOperator(_, id) =>
        var r := Emit(Separate(o), Shown(id));
        SeparateShows(o, text, w);
        IdWritten(Separate(o), text + "::", w, id);
        DirectNest(Separate(o), r);
        DeepenShows(r, text + "::" + IdReadable(id), w);
        assert text + "::" + IdReadable(id) == text + ("::" + IdReadable(id));
      case Cast(t) => CastWritten(o, text, w, t);
    }
  }

  lemma {:induction false} CastWritten(o: Out, text: string, w: nat, t: Ty)
    requires Shows(o, text, w) && o.nest >= 1 && WfTy(t) && |text + ("::" + ("operator " + TyReadable(t)))| <= w
    ensures var r := Deepen(TyOut(Emit(Separate(o), "operator ").(nest := 0), t).(nest := o.nest));
      Shows(r, text + ("::" + ("operator " + TyReadable(t))), w) && r.nest >= 1
    decreases t, 3
  {
    hide Emit, Separate, Deepen, Shows, Direct, TyOut, TyReadable, WfTy, PrevName;
    var s := Separate(o);
    var p, q := Emit(s, "operator "), text + "::" + "operator ";
    SeparateShows(o, text, w);
    EmitShows(s, text + "::", w, "operator ");
    NestShows(p, q, w, 0);
    assert q + TyReadable(t) == text + ("::" + ("operator " + TyReadable(t)));
    TyWritten(p.(nest := 0), q, w, t);
    var r := TyOut(p.(nest := 0), t);
    NestShows(r, q + TyReadable(t), w, o.nest);
    DeepenShows(r.(nest := o.nest), q + TyReadable(t), w);
  }

  // ---------- types ----------

  /** Of a type with another one inside, what is shown. */
  lemma TyIs(t: Ty, o: Out)
    requires WfTy(t)
    ensures t.Modified? ==> WfTy(t.of) && TyReadable(t) == TyReadable(t.of) && TyOut(o, t) == TyOut(o, t.of)
    ensures t.Expansion? ==> WfTy(t.of) && TyReadable(t) == TyReadable(t.of) && TyOut(o, t) == TyOut(o, t.of)
    ensures t.ArrayOf? ==> WfTy(t.of) && TyReadable(t) == TyReadable(t.of) && TyOut(o, t) == TyOut(o, t.of)
  {
    hide WfTys, WfArgs, WfPlace, WfName, IsIdentifier, IsBuiltin;
  }

  lemma VendorTyIs(t: Ty, o: Out)
    requires t.VendorModified? && WfTy(t)
    ensures WfTy(t.of) && IsIdentifier(t.id) && TyReadable(t) == IdReadable(t.id) + TyReadable(t.of)
    ensures TyOut(o, t) == TyOut(Emit(o, Shown(t.id)), t.of)
  {
    hide IsIdentifier, IdReadable, Emit, Shown;
  }

  lemma MemberTyIs(t: Ty, o: Out)
    requires t.MemberOf? && WfTy(t)
    ensures WfTy(t.owner) && WfTy(t.of) && TyReadable(t) == TyReadable(t.owner) + TyReadable(t.of)
    ensures TyOut(o, t) == TyOut(TyOut(o, t.owner), t.of)
  {}

  lemma SimpleTyIs(t: Ty, o: Out)
    requires WfTy(t)
    ensures t.Builtin? ==>
      IsBuiltin(t.code) && TyReadable(t) == BuiltinReadable(t.code) && TyOut(o, t) == Emit(o, BuiltinReadable(t.code))
    ensures t.Vendor? ==> IsIdentifier(t.id) && TyReadable(t) == IdReadable(t.id) && TyOut(o, t) == Emit(o, Shown(t.id))
    ensures t.FunctionOf? ==> TyReadable(t) == "()" && TyOut(o, t) == Emit(o, "()")
    ensures t.Placed? ==>
      && TyReadable(t) == PlaceReadable(t.place) + (if t.args != [] then "<>" else "")
      && TyOut(o, t) == PlacedOut(o, t.place, t.args != [])
    ensures t.Class? ==> WfName(t.name) && TyReadable(t) == NameReadable(t.name) && TyOut(o, t) == NameOut(o, t.name)
  {
    hide IsBuiltin, IsIdentifier, BuiltinReadable, IdReadable, PlaceReadable, Emit, Shown, PlacedOut, WfName, WfTys,
         WfPlace, WfArgs, NameReadable, NameOut;
  }

  lemma {:induction false} TyWritten(o: Out, text: string, w: nat, t: Ty)
    requires Shows(o, text, w) && WfTy(t) && |text + TyReadable(t)| <= w
    ensures var r := TyOut(o, t); Shows(r, text + TyReadable(t), w) && r.nest == o.nest && r.ideal.ended
    decreases t, 2
  {
    hide Shows, Direct, Emit, Shown, TyOut, TyReadable, WfTy, IsIdentifier, IsBuiltin, BuiltinReadable, IdReadable,
         PlaceReadable, PlacedOut, NameOut, NameReadable, WfName;
    match t {
      case Builtin(code) =>
        SimpleTyIs(t, o);
        BuiltinNames(code);
        EmitShows(o, text, w, BuiltinReadable(code));
        DirectNest(o, Emit(o, BuiltinReadable(code)));
      case Vendor(id) =>
        SimpleTyIs(t, o);
        IdWritten(o, text, w, id);
        DirectNest(o, Emit(o, Shown(id)));
      case FunctionOf(_, _) =>
        SimpleTyIs(t, o);
        EmitShows(o, text, w, "()");
        DirectNest(o, Emit(o, "()"));
      case Placed(place, args) =>
        SimpleTyIs(t, o);
        PlacedWritten(o, text, w, place, args != []);
      case Class(name) =>
        SimpleTyIs(t, o);
        NameWritten(o, text, w, name);
      case Modified(_, of) => TyIs(t, o); TyWritten(o, text, w, of);
      case Expansion(of) => TyIs(t, o); TyWritten(o, text, w, of);
      case ArrayOf(_, of) => TyIs(t, o); TyWritten(o, text, w, of);
      case VendorModified(_, _) => VendorTyWritten(o, text, w, t);
      case MemberOf(_, _) => MemberTyWritten(o, text, w, t);
    }
  }

  lemma {:induction false} VendorTyWritten(o: Out, text: string, w: nat, t: Ty)
    requires t.VendorModified? && Shows(o, text, w) && WfTy(t) && |text + TyReadable(t)| <= w
    ensures var r := TyOut(o, t); Shows(r, text + TyReadable(t), w) && r.nest == o.nest && r.ideal.ended
    decreases t, 0
  {
    hide Shows, Direct, Emit, Shown, TyOut, TyReadable, WfTy, IsIdentifier, IdReadable, PrevName;
    var u := Emit(o, Shown(t.id));
    VendorTyIs(t, o);
    IdWritten(o, text, w, t.id);
    DirectNest(o, u);
    assert text + IdReadable(t.id) + TyReadable(t.of) == text + TyReadable(t);
    TyWritten(u, text + IdReadable(t.id), w, t.of);
  }

  lemma {:induction false} MemberTyWritten(o: Out, text: string, w: nat, t: Ty)
    requires t.MemberOf? && Shows(o, text, w) && WfTy(t) && |text + TyReadable(t)| <= w
    ensures var r := TyOut(o, t); Shows(r, text + TyReadable(t), w) && r.nest == o.nest && r.ideal.ended
    decreases t, 0
  {
    hide Shows, TyOut, TyReadable, WfTy;
    MemberTyIs(t, o);
    assert text + TyReadable(t.owner) + TyReadable(t.of) == text + TyReadable(t);
    TyWritten(o, text, w, t.owner);
    TyWritten(TyOut(o, t.owner), text + TyReadable(t.owner), w, t.of);
  }

  // ---------- names and functions ----------

  lemma {:induction false} NestedWritten(o: Out, text: string, w: nat, name: Name)
    requires name.Nested? && Shows(o, text, w) && WfName(name) && |text + NameReadable(name)| <= w
    ensures var r := NameOut(o, name); Shows(r, text + NameReadable(name), w) && r.nest == o.nest && r.ideal.ended
    decreases name, 0
  {
    hide Shows, Separate, Cancel, AfterItems, AfterKind, PrevName, Joined, KindReadable, NameReadable, NameOut,
         WfItem, WfItems, WfKind, WfName, OwnName, IsIdentifier, IdReadable;
    NestedIs(name, o);
    NestedReadable(name);
    var items, kind, p := name.items, name.kind, o.(nest := 0);
    var last := OwnName(items[|items| - 1]);
    var head, rest, whole := text + Joined(items), KindReadable(kind, last), text + NameReadable(name);
    assert whole == head + rest;
    NestShows(o, text, w, 0);
    NamesWritten(p, text, w, items);
    var k := AfterKind(AfterItems(p, items), kind);
    KindWritten(AfterItems(p, items), head, w, kind, last);
    SeparatorCancelled(k, whole, w);
    NestShows(Cancel(Separate(k)), whole, w, o.nest);
  }

  lemma NestedReadable(name: Name)
    requires name.Nested? && WfName(name)
    ensures name.items != [] && WfKind(name.kind, OwnName(name.items[|name.items| - 1]))
    ensures NameReadable(name) == Joined(name.items) + KindReadable(name.kind, OwnName(name.items[|name.items| - 1]))
  {
    hide Joined, KindReadable, WfItems, WfKind, OwnName;
  }

  lemma UnscopedIdWritten(o: Out, text: string, w: nat, std: bool, id: string)
    requires Shows(o, text, w) && IsIdentifier(id)
    ensures var r := UnscopedOut(o, std, id);
      Shows(r, text + ((if std then "std::" else "") + IdReadable(id)), w) && Direct(o, r) && r.ideal.ended
  {
    hide Emit, Shown, IdReadable, IsIdentifier, Shows, Direct, PrevName;
    var s := Emit(o, "std::");
    if std {
      EmitShows(o, text, w, "std::");
      IdWritten(s, text + "std::", w, id);
      assert text + "std::" + IdReadable(id) == text + ("std::" + IdReadable(id));
      ShowsLength(s, text + "std::", w);
      ShowsLength(Emit(s, Shown(id)), text + "std::" + IdReadable(id), w);
      DirectBoth(o, s, Emit(s, Shown(id)));
    } else {
      IdWritten(o, text, w, id);
      assert "" + IdReadable(id) == IdReadable(id);
    }
  }

  lemma ShowsLength(o: Out, text: string, w: nat)
    requires Shows(o, text, w)
    ensures o.ideal.text == text
  {}

  lemma UnscopedWritten(o: Out, text: string, w: nat, name: Name)
    requires name.Unscoped? && Shows(o, text, w) && WfName(name) && |text + NameReadable(name)| <= w
    ensures var r := NameOut(o, name); Shows(r, text + NameReadable(name), w) && r.nest == o.nest && r.ideal.ended
  {
    hide Shows, Direct, Emit, UnscopedOut, Undo, IdReadable, IsIdentifier, WfArgs, WfName, NameOut, NameReadable,
         HeadText, TemplateText;
    UnscopedParts(name, o);
    UnscopedReadable(name, text);
    var std, id := name.std, name.item.id;
    var head := (if std then "std::" else "") + IdReadable(id);
    var u := UnscopedOut(o, std, id);
    UnscopedIdWritten(o, text, w, std, id);
    DirectNest(o, u);
    if name.item.args == [] {
      UndoShows(o, text, u, text + head, w);
      UnscopedIdWritten(Undo(o, u), text, w, std, id);
      DirectNest(Undo(o, u), UnscopedOut(Undo(o, u), std, id));
    } else {
      EmitShows(u, text + head, w, "<>");
      DirectNest(u, Emit(u, "<>"));
      assert text + head + "<>" == text + NameReadable(name);
    }
  }

  lemma UnscopedReadable(name: Name, text: string)
    requires name.Unscoped? && WfName(name)
    ensures var head := (if name.std then "std::" else "") + IdReadable(OwnName(name.item));
      && NameReadable(name) == head + (if name.item.args == [] then "" else "<>")
      && (name.item.args == [] ==> NameReadable(name) == head)
      && (name.item.args != [] ==> Joins(text + head, "<>"))
  {
    hide IdReadable, WfArgs;
    var head := (if name.std then "std::" else "") + IdReadable(OwnName(name.item));
    assert head + "" == head;
    ShownIs(OwnName(name.item));
    assert (text + head)[|text + head| - 1] == IdReadable(OwnName(name.item))[|IdReadable(OwnName(name.item))| - 1];
    assert NameReadable(name) == (if name.std then "std::" else "")
      + (IdReadable(OwnName(name.item)) + if name.item.args == [] then "" else "<>");
  }

  lemma FreeOperatorWritten(o: Out, text: string, w: nat, name: Name)
    requires name.FreeOperator? && Shows(o, text, w) && WfName(name) && |text + NameReadable(name)| <= w
    ensures var r := NameOut(o, name); Shows(r, text + NameReadable(name), w) && r.nest == o.nest && r.ideal.ended
  {
    hide Shows, Direct, EmitOperator, SymbolOf, Undo, OperatorReadable, IsOperator;
    var c0, c1 := name.c0, name.c1;
    var t := text + OperatorReadable(c0, c1);
    var u := EmitOperator(o, SymbolOf(c0, c1));
    OperatorWritten(o, text, w, c0, c1);
    UndoShows(o, text, u, t, w);
    OperatorWritten(Undo(o, u), text, w, c0, c1);
    DirectNest(Undo(o, u), EmitOperator(Undo(o, u), SymbolOf(c0, c1)));
  }

  lemma {:induction false} NameWritten(o: Out, text: string, w: nat, name: Name)
    requires Shows(o, text, w) && WfName(name) && |text + NameReadable(name)| <= w
    ensures var r := NameOut(o, name); Shows(r, text + NameReadable(name), w) && r.nest == o.nest && r.ideal.ended
    decreases name, 1
  {
    hide Shows, NameOut, NameReadable, WfName;
    match name {
      case Nested(_, _, _) => NestedWritten(o, text, w, name);
      case Unscoped(_, _) => UnscopedWritten(o, text, w, name);
      case FreeOperator(_, _) => FreeOperatorWritten(o, text, w, name);
      case Local(_, _) => LocalWritten(o, text, w, name);
    }
  }

  lemma {:induction false} LocalWritten(o: Out, text: string, w: nat, name: Name)
    requires name.Local? && Shows(o, text, w) && WfName(name) && |text + NameReadable(name)| <= w
    ensures var r := NameOut(o, name); Shows(r, text + NameReadable(name), w) && r.nest == o.nest && r.ideal.ended
    decreases name, 0
  {
    hide Shows, Direct, Emit, NameOut, FunctionOut, NameReadable, Readable, WfName, WfFunction;
    LocalIs(name);
    LocalOut(o, name);
    var t := text + Readable(name.f);
    var p := Emit(FunctionOut(o, name.f), "::");
    assert t + "::" + NameReadable(name.entity) == text + NameReadable(name);
    FunctionWritten(o, text, w, name.f);
    EmitShows(FunctionOut(o, name.f), t, w, "::");
    DirectNest(FunctionOut(o, name.f), p);
    NameWritten(p, t + "::", w, name.entity);
  }

  lemma LocalIs(name: Name)
    requires name.Local? && WfName(name)
    ensures WfFunction(name.f) && WfName(name.entity)
    ensures NameReadable(name) == Readable(name.f) + "::" + NameReadable(name.entity)
  {}

  /** What was abandoned on the way may be as long as the name of the function, without the parentheses. */
  lemma {:induction false} FunctionWritten(o: Out, text: string, w: nat, f: Function)
    requires Shows(o, text, w) && WfFunction(f) && |text + Readable(f)| <= w + 2
    ensures var r := FunctionOut(o, f);
      && Shows(r, text + Readable(f), w) && r.nest == o.nest && r.ideal.ended
      && r.ideal.need == |text + Readable(f)|
    decreases f
  {
    hide Shows, Direct, Emit, NameOut, NameReadable, WfName;
    var t := text + NameReadable(f.name);
    assert t + "()" == text + Readable(f);
    NameWritten(o, text, w, f.name);
    EmitShows(NameOut(o, f.name), t, w, "()");
    EmitTwo(NameOut(o, f.name), t, w, "()");
    DirectNest(NameOut(o, f.name), Emit(NameOut(o, f.name), "()"));
  }
}
