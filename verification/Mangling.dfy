/** How a compiler mangles the symbols of a program, after the Itanium C++ ABI, section 5.1; and the form in
    which this demangler is to show them.  Nothing here refers to the demangler's grammar. */
module Mangling {
  import opened Lists
  import opened MangledText
  import opened DemangleTables

  // ---------- what is mangled ----------

  /** What stands for something else. */
  datatype Place =
    | Param(index: Option<nat>)                    // a template parameter
    | Earlier(id: string)                          // what was mangled before
    | Standard(code: char)                         // std, std::string, etc.

  datatype Ty =
    | Builtin(code: char)
    | Vendor(id: string)
    | Modified(modifier: char, of: Ty)             // pointers, references, qualifiers, ...
    | VendorModified(id: string, of: Ty)
    | Expansion(of: Ty)                            // of a parameter pack
    | ArrayOf(n: Option<nat>, of: Ty)
    | MemberOf(owner: Ty, of: Ty)
    | FunctionOf(externC: bool, params: seq<Ty>)   // the return type first
    | Placed(place: Place, args: seq<Arg>)
    | Class(name: Name)

  datatype Literal = Int(code: char, n: int) | Float(code: char, digits: string)

  /** An expression over template parameters. */
  datatype Expr =
    | ParamValue(index: Option<nat>)
    | Constant(value: Literal)
    | Operation(c0: char, c1: char, operands: seq<Expr>)

  /** A template argument. */
  datatype Arg =
    | TypeArg(t: Ty)
    | Value(value: Literal)
    | Address(f: Function)
    | Pack(args: seq<Arg>)
    | Computed(e: Expr)

  /** A part of a qualified name, with its template arguments, if it has any. */
  datatype Item =
    | Identifier(internal: bool, id: string, tags: seq<string>, args: seq<Arg>)
    | Stand(place: Place, args: seq<Arg>)

  /** What follows the parts of a nested name: nothing, or a constructor, destructor, operator or conversion
      of the last one. */
  datatype Kind =
    | Ordinary
    | Constructor(variant: char)
    | Destructor(variant: char)
    | Operator(c0: char, c1: char)
    | VendorOperator(operands: char, id: string)
    | Cast(t: Ty)

  /** The qualifiers of a member function. */
  datatype Cv = Cv(r: bool, v: bool, k: bool)

  datatype Name =
    | Nested(cv: Cv, items: seq<Item>, kind: Kind)
    | Unscoped(std: bool, item: Item)
    | FreeOperator(c0: char, c1: char)
    | Local(f: Function, entity: Name)             // inside a function

  datatype Function = Function(name: Name, params: seq<Ty>)

  /** Where an override finds its object: a fixed offset, or one from the vtable. */
  datatype Offset = Fixed(n: int) | Virtual(n: int, m: int)

  datatype Symbol =
    | Callable(f: Function)
    | Variable(name: Name)
    | Static(f: Function, id: string, number: nat)       // one of several of that name in a function
    | StringLiteral(f: Function, copy: Option<nat>)
    | TypeData(code: char, t: Ty)                        // vtables and type information
    | ConstructionVtable(t: Ty, n: int, base: Ty)
    | NameData(code: char, name: Name)                   // guard variables and reference temporaries
    | Alias(f: Function)
    | Thunk(offset: Offset, f: Function)
    | CovariantThunk(this_: Offset, result: Offset, f: Function)
    | GnuThunk(code: char, offset: Offset, f: Function)

  /** A function clone suffix: (.<alpha>+.<digit>+)* */
  datatype Clone = Clone(letters: string, digits: string)

  /** What the linker puts behind a symbol: clone suffixes, or a version. */
  datatype Suffix = Clones(clones: seq<Clone>) | Version(version: string)

  // ---------- mangling ----------

  function Decimal(n: nat): (s: string)
    ensures s != "" && forall k :: 0 <= k < |s| ==> IsDigit(s[k])
    ensures DecimalValue(s) == n
  {
    var d := ('0' as int + n % 10) as char;
    assert DigitValue(d) == n % 10;
    if n < 10 then
      assert [d][..0] == "";
      [d]
    else
      assert (Decimal(n / 10) + [d])[..|Decimal(n / 10)|] == Decimal(n / 10);
      Decimal(n / 10) + [d]
  }

  function IntText(n: int): string { if n < 0 then "n" + Decimal(-n) else Decimal(n) }

  function IdText(id: string): string { Decimal(|id|) + id }

  function ParamText(index: Option<nat>): string
  {
    if index.Some? then "T" + (Decimal(index.value) + "_") else "T_"
  }

  function DimensionText(n: Option<nat>): string { if n.Some? then Decimal(n.value) else "" }

  function PlaceText(place: Place): string
  {
    match place
    case Param(index) => ParamText(index)
    case Earlier(id) => "S" + (id + "_")
    case Standard(code) => "S" + [code]
  }

  function TyText(t: Ty): string
    decreases t
  {
    match t
    case Builtin(code) => [code]
    case Vendor(id) => "u" + IdText(id)
    case Modified(modifier, of) => [modifier] + TyText(of)
    case VendorModified(id, of) => ("U" + IdText(id)) + TyText(of)
    case Expansion(of) => "Dp" + TyText(of)
    case ArrayOf(n, of) => ("A" + (DimensionText(n) + "_")) + TyText(of)
    case MemberOf(owner, of) => ("M" + TyText(owner)) + TyText(of)
    case FunctionOf(externC, params) => ((if externC then "FY" else "F") + TysText(params)) + "E"
    case Placed(place, args) => PlaceText(place) + TemplateText(args)
    case Class(name) => NameText(name)
  }

  function TysText(ts: seq<Ty>): string
    decreases ts
  {
    if ts == [] then "" else TyText(ts[0]) + TysText(ts[1..])
  }

  function LiteralText(l: Literal): string
  {
    match l
    case Int(code, n) => ("L" + ([code] + IntText(n))) + "E"
    case Float(code, digits) => ("L" + ([code] + digits)) + "E"
  }

  function ExprText(e: Expr): string
    decreases e
  {
    match e
    case ParamValue(index) => ParamText(index)
    case Constant(l) => LiteralText(l)
    case Operation(c0, c1, operands) => [c0, c1] + ExprsText(operands)
  }

  function ExprsText(es: seq<Expr>): string
    decreases es
  {
    if es == [] then "" else ExprText(es[0]) + ExprsText(es[1..])
  }

  function ArgText(a: Arg): string
    decreases a
  {
    match a
    case TypeArg(t) => TyText(t)
    case Value(l) => LiteralText(l)
    case Address(f) => ("L_Z" + FunctionText(f)) + "E"
    case Pack(args) => ("J" + ArgsText(args)) + "E"
    case Computed(e) => ("X" + ExprText(e)) + "E"
  }

  function ArgsText(args: seq<Arg>): string
    decreases args, 0
  {
    if args == [] then "" else ArgText(args[0]) + ArgsText(args[1..])
  }

  function TemplateText(args: seq<Arg>): string
    decreases args, 1
  {
    if args == [] then "" else ("I" + ArgsText(args)) + "E"
  }

  function TagsText(tags: seq<string>): string
  {
    if tags == [] then "" else ("B" + IdText(tags[0])) + TagsText(tags[1..])
  }

  /** An identifier, its linkage and its tags. */
  function HeadText(internal: bool, id: string, tags: seq<string>): string
  {
    ((if internal then "L" else "") + IdText(id)) + TagsText(tags)
  }

  function ItemText(item: Item): string
    decreases item
  {
    match item
    case Identifier(internal, id, tags, args) => HeadText(internal, id, tags) + TemplateText(args)
    case Stand(place, args) => PlaceText(place) + TemplateText(args)
  }

  function ItemsText(items: seq<Item>): string
    decreases items
  {
    if items == [] then "" else ItemText(items[0]) + ItemsText(items[1..])
  }

  function KindCode(kind: Kind): string
    decreases kind
  {
    match kind
    case Ordinary => ""
    case Constructor(variant) => "C" + [variant]
    case Destructor(variant) => "D" + [variant]
    case Operator(c0, c1) => [c0, c1]
    case VendorOperator(operands, id) => ("v" + [operands]) + IdText(id)
    case Cast(t) => "cv" + TyText(t)
  }

  function CvText(cv: Cv): string
  {
    (if cv.r then "r" else "") + ((if cv.v then "V" else "") + (if cv.k then "K" else ""))
  }

  function NameText(name: Name): string
    decreases name
  {
    match name
    case Nested(cv, items, kind) => (("N" + CvText(cv)) + ItemsText(items)) + (KindCode(kind) + "E")
    case Unscoped(std, item) => (if std then "St" else "") + ItemText(item)
    case FreeOperator(c0, c1) => [c0, c1]
    case Local(f, entity) => (("Z" + FunctionText(f)) + "E") + NameText(entity)
  }

  function FunctionText(f: Function): string
    decreases f
  {
    NameText(f.name) + TysText(f.params)
  }

  function OffsetText(offset: Offset): string
  {
    match offset
    case Fixed(n) => "h" + (IntText(n) + "_")
    case Virtual(n, m) => "v" + ((IntText(n) + "_") + (IntText(m) + "_"))
  }

  function NumberText(number: Option<nat>): string { if number.Some? then "_" + Decimal(number.value) else "" }

  function EncodingText(symbol: Symbol): string
  {
    match symbol
    case Callable(f) => FunctionText(f)
    case Variable(name) => NameText(name)
    case Static(f, id, number) => (("Z" + FunctionText(f)) + "E") + (IdText(id) + NumberText(Some(number)))
    case StringLiteral(f, copy) => (("Z" + FunctionText(f)) + "E") + ("s" + NumberText(copy))
    case TypeData(code, t) => ("T" + [code]) + TyText(t)
    case ConstructionVtable(t, n, base) => ("TC" + TyText(t)) + ((IntText(n) + "_") + TyText(base))
    case NameData(code, name) => ("G" + [code]) + NameText(name)
    case Alias(f) => "GA" + FunctionText(f)
    case Thunk(offset, f) => ("T" + OffsetText(offset)) + FunctionText(f)
    case CovariantThunk(this_, result, f) => ("Tc" + OffsetText(this_)) + (OffsetText(result) + FunctionText(f))
    case GnuThunk(code, offset, f) => ("T" + [code]) + (OffsetText(offset) + FunctionText(f))
  }

  function CloneText(clones: seq<Clone>): string
  {
    if clones == [] then ""
    else "." + clones[0].letters + "." + clones[0].digits + CloneText(clones[1..])
  }

  function SuffixText(suffix: Suffix): string
  {
    match suffix case Clones(clones) => CloneText(clones) case Version(version) => "@" + version
  }

  function Mangled(symbol: Symbol, suffix: Suffix): string { ("_Z" + EncodingText(symbol)) + SuffixText(suffix) }

  // ---------- the readable form ----------

  /** An identifier, or what is shown for that of an anonymous namespace. */
  function IdReadable(id: string): string
  {
    if |id| > 11 && id[..11] == "_GLOBAL__N_" then "(anonymous namespace)" else id
  }

  /** `operator+`, `operator new`, etc., with the symbol from the table. */
  function OperatorReadable(c0: char, c1: char): string
  {
    var found := FindPair(OPERATORS, c0, c1);
    var symbol := if found.Some? then found.value else "";
    "operator" + (if symbol != "" && 'a' <= symbol[0] <= 'z' then " " else "") + symbol
  }

  /** The name of a builtin type, from the table. */
  function BuiltinReadable(code: char): string
  {
    var found := FindChar(BUILTIN_TYPES, 0, code);
    if found.Some? then found.value else ""
  }

  /** What a standard abbreviation stands for in std, from the table; nothing for std itself. */
  function StandardName(code: char): string
  {
    var found := FindChar(SUBSTITUTIONS, 1, code);
    if found.Some? then found.value else ""
  }

  /** What else stands for something is not looked up. */
  function PlaceReadable(place: Place): string
  {
    if !place.Standard? then "?"
    else "std" + if StandardName(place.code) == "" then "" else "::" + StandardName(place.code)
  }

  /** Template arguments are not shown. */
  function ArgsReadable(args: seq<Arg>): string { if args == [] then "" else "<>" }

  function ItemReadable(item: Item): string
  {
    match item
    case Identifier(_, id, _, args) => IdReadable(id) + ArgsReadable(args)
    case Stand(place, args) => PlaceReadable(place) + ArgsReadable(args)
  }

  /** The parts joined by `::`. */
  function Joined(items: seq<Item>): string
    requires items != []
  {
    ItemReadable(items[0]) + Continued(items[1..])
  }

  function Continued(items: seq<Item>): string
  {
    if items == [] then "" else "::" + ItemReadable(items[0]) + Continued(items[1..])
  }

  /** Of a type, this demangler shows neither modifiers nor dimensions nor parameters. */
  function TyReadable(t: Ty): string
    requires WfTy(t)
    decreases t
  {
    hide WfTys, WfArgs, WfPlace, WfName, IsIdentifier, IsBuiltin;
    match t
    case Builtin(code) => BuiltinReadable(code)
    case Vendor(id) => IdReadable(id)
    case Modified(_, of) => TyReadable(of)
    case VendorModified(id, of) => IdReadable(id) + TyReadable(of)
    case Expansion(of) => TyReadable(of)
    case ArrayOf(_, of) => TyReadable(of)
    case MemberOf(owner, of) => TyReadable(owner) + TyReadable(of)
    case FunctionOf(_, _) => "()"
    case Placed(place, args) => PlaceReadable(place) + ArgsReadable(args)
    case Class(name) => NameReadable(name)
  }

  function KindReadable(kind: Kind, last: string): string
    requires WfKind(kind, last)
    decreases kind
  {
    match kind
    case Ordinary => ""
    case Constructor(_) => "::" + last
    case Destructor(_) => "::~" + last
    case Operator(c0, c1) => "::" + OperatorReadable(c0, c1)
    case VendorOperator(_, id) => "::" + IdReadable(id)
    case Cast(t) => "::" + ("operator " + TyReadable(t))
  }

  /** What a constructor is called behind this part. */
  function OwnName(item: Item): string
  {
    match item
    case Identifier(_, id, _, _) => id
    case Stand(place, _) => if place.Standard? then StandardName(place.code) else ""
  }

  function NameReadable(name: Name): string
    requires WfName(name)
    decreases name
  {
    match name
    case Nested(_, items, kind) => Joined(items) + KindReadable(kind, OwnName(items[|items| - 1]))
    case Unscoped(std, item) => (if std then "std::" else "") + ItemReadable(item)
    case FreeOperator(c0, c1) => OperatorReadable(c0, c1)
    case Local(f, entity) => Readable(f) + "::" + NameReadable(entity)
  }

  /** Parameters are not shown either. */
  function Readable(f: Function): string
    requires WfFunction(f)
    decreases f
  {
    NameReadable(f.name) + "()"
  }

  /** Nor is it shown what a symbol is for. */
  function SymbolReadable(symbol: Symbol): string
    requires WfSymbol(symbol)
  {
    hide WfFunction, WfName, WfTy;
    match symbol
    case Callable(f) => Readable(f)
    case Variable(name) => NameReadable(name)
    case Static(f, id, _) => Readable(f) + "::" + IdReadable(id)
    case StringLiteral(f, _) => Readable(f)
    case TypeData(_, t) => TyReadable(t)
    case ConstructionVtable(t, _, _) => TyReadable(t)
    case NameData(_, name) => NameReadable(name)
    case Alias(f) => Readable(f)
    case Thunk(_, f) => Readable(f)
    case CovariantThunk(_, _, f) => Readable(f)
    case GnuThunk(_, _, f) => Readable(f)
  }

  /** A version is shown, clone suffixes are not. */
  function SuffixReadable(suffix: Suffix): string
  {
    match suffix case Clones(_) => "" case Version(version) => "@" + version
  }

  // ---------- what there is to mangle ----------

  predicate IsBuiltin(code: char) { code in "vwbcahstijlmxynofdegz" }

  /** An identifier as compilers emit it: it starts with a letter or an underscore. */
  predicate IsIdentifier(id: string) { id != "" && (IsAlpha(id[0]) || id[0] == '_') && '\0' !in id }

  /** An operator of the table; `cv`, the cast, is not one of them. */
  predicate IsOperator(c0: char, c1: char)
  {
    IsLower(c0) && IsAlpha(c1) && !(c0 == 'c' && c1 == 'v') && Abbreviates(OPERATORS, c0, c1)
  }

  /** The table has an entry for these two letters. */
  predicate Abbreviates(table: AbbrevTable, c0: char, c1: char)
  {
    exists p :: p in table && p.abbrev == [c0, c1]
  }

  predicate IsClone(c: Clone)
  {
    && c.letters != "" && (forall k :: 0 <= k < |c.letters| ==> IsAlpha(c.letters[k]))
    && c.digits != "" && (forall k :: 0 <= k < |c.digits| ==> IsDigit(c.digits[k]))
  }

  /** `St`, for the namespace, can only be the beginning of a name. */
  predicate WfPlace(place: Place, inName: bool)
  {
    match place
    case Param(_) => true
    case Earlier(id) => forall k :: 0 <= k < |id| ==> SeqIdChars.Has(id[k])
    case Standard(code) => code in "absiod" || (code == 't' && inName)
  }

  predicate WfTy(t: Ty)
    decreases t
  {
    match t
    case Builtin(code) => IsBuiltin(code)
    case Vendor(id) => IsIdentifier(id)
    case Modified(modifier, of) => modifier in "OPRCGrVK" && WfTy(of)
    case VendorModified(id, of) => IsIdentifier(id) && WfTy(of)
    case Expansion(of) => WfTy(of)
    case ArrayOf(_, of) => WfTy(of)
    case MemberOf(owner, of) => WfTy(owner) && WfTy(of)
    case FunctionOf(_, params) => params != [] && WfTys(params)
    case Placed(place, args) => WfPlace(place, false) && WfArgs(args)
    case Class(name) => !name.FreeOperator? && WfName(name)
  }

  predicate WfTys(ts: seq<Ty>)
    decreases ts
  {
    ts == [] || (WfTy(ts[0]) && WfTys(ts[1..]))
  }

  /** The code `n`, of __int128, would be taken for the sign of a length here. */
  predicate IsLiteralCode(code: char) { IsBuiltin(code) && code != 'n' }

  predicate WfLiteral(l: Literal)
  {
    match l
    case Int(code, _) => IsLiteralCode(code)
    case Float(code, digits) =>
      IsLiteralCode(code) && digits != "" && forall k :: 0 <= k < |digits| ==> FloatChars.Has(digits[k])
  }

  predicate WfExpr(e: Expr)
    decreases e
  {
    match e
    case ParamValue(_) => true
    case Constant(l) => WfLiteral(l)
    case Operation(c0, c1, operands) => IsOperator(c0, c1) && 1 <= |operands| <= 3 && WfExprs(operands)
  }

  predicate WfExprs(es: seq<Expr>)
    decreases es
  {
    es == [] || (WfExpr(es[0]) && WfExprs(es[1..]))
  }

  predicate WfArg(a: Arg)
    decreases a
  {
    match a
    case TypeArg(t) => WfTy(t)
    case Value(l) => WfLiteral(l)
    case Address(f) => WfFunction(f)
    case Pack(args) => WfArgs(args)
    case Computed(e) => WfExpr(e)
  }

  predicate WfArgs(args: seq<Arg>)
    decreases args
  {
    args == [] || (WfArg(args[0]) && WfArgs(args[1..]))
  }

  /** The demangler keeps a space between two `<`. */
  predicate WfItem(item: Item)
    decreases item
  {
    match item
    case Identifier(_, id, tags, args) =>
      && IsIdentifier(id) && (forall tag :: tag in tags ==> IsIdentifier(tag)) && WfArgs(args)
      && (args != [] ==> id[|id| - 1] != '<')
    case Stand(place, args) => WfPlace(place, true) && WfArgs(args)
  }

  predicate WfItems(items: seq<Item>)
    decreases items
  {
    items == [] || (WfItem(items[0]) && WfItems(items[1..]))
  }

  /** Constructors repeat the name of their class, which must be one that is shown as it is. */
  predicate WfKind(kind: Kind, last: string)
    decreases kind
  {
    match kind
    case Ordinary => true
    case Constructor(variant) => variant in "123" && IsIdentifier(last) && IdReadable(last) == last
    case Destructor(variant) => variant in "012" && IsIdentifier(last) && IdReadable(last) == last
    case Operator(c0, c1) => IsOperator(c0, c1)
    case VendorOperator(operands, id) => IsDigit(operands) && IsIdentifier(id)
    case Cast(t) => WfTy(t)
  }

  predicate WfName(name: Name)
    decreases name
  {
    match name
    case Nested(_, items, kind) => items != [] && WfItems(items) && WfKind(kind, OwnName(items[|items| - 1]))
    case Unscoped(_, item) => item.Identifier? && WfItem(item)
    case FreeOperator(c0, c1) => IsOperator(c0, c1)
    case Local(f, entity) => WfFunction(f) && WfName(entity)
  }

  predicate WfFunction(f: Function)
    decreases f
  {
    WfName(f.name) && f.params != [] && WfTys(f.params)
  }

  predicate WfSymbol(symbol: Symbol)
  {
    match symbol
    case Callable(f) => WfFunction(f)
    case Variable(name) => WfName(name)
    case Static(f, id, _) => WfFunction(f) && IsIdentifier(id)
    case StringLiteral(f, _) => WfFunction(f)
    case TypeData(code, t) => code in "VTISFJ" && WfTy(t)
    case ConstructionVtable(t, _, base) => WfTy(t) && WfTy(base)
    case NameData(code, name) => code in "VR" && WfName(name)
    case Alias(f) => WfFunction(f)
    case Thunk(_, f) => WfFunction(f)
    case CovariantThunk(_, _, f) => WfFunction(f)
    case GnuThunk(code, _, f) => code in "hv" && WfFunction(f)
  }

  predicate WfSuffix(suffix: Suffix)
  {
    match suffix
    case Clones(clones) => forall c :: c in clones ==> IsClone(c)
    case Version(version) => '\0' !in version
  }
}
