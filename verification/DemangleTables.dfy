/** The abbreviation tables of the Itanium C++ ABI that the demangler searches. */
module DemangleTables {
  import opened Lists
  import opened MangledText
  import opened DemangleGrammar

  /** Operators. */
  const OPERATORS: AbbrevTable := [
    AbbrevPair("nw", "new"), AbbrevPair("na", "new[]"), AbbrevPair("dl", "delete"), AbbrevPair("da", "delete[]"),
    AbbrevPair("ps", "+"), AbbrevPair("ng", "-"), AbbrevPair("ad", "&"), AbbrevPair("de", "*"),
    AbbrevPair("co", "~"), AbbrevPair("pl", "+"), AbbrevPair("mi", "-"), AbbrevPair("ml", "*"),
    AbbrevPair("dv", "/"), AbbrevPair("rm", "%"), AbbrevPair("an", "&"), AbbrevPair("or", "|"),
    AbbrevPair("eo", "^"), AbbrevPair("aS", "="), AbbrevPair("pL", "+="), AbbrevPair("mI", "-="),
    AbbrevPair("mL", "*="), AbbrevPair("dV", "/="), AbbrevPair("rM", "%="), AbbrevPair("aN", "&="),
    AbbrevPair("oR", "|="), AbbrevPair("eO", "^="), AbbrevPair("ls", "<<"), AbbrevPair("rs", ">>"),
    AbbrevPair("lS", "<<="), AbbrevPair("rS", ">>="), AbbrevPair("eq", "=="), AbbrevPair("ne", "!="),
    AbbrevPair("lt", "<"), AbbrevPair("gt", ">"), AbbrevPair("le", "<="), AbbrevPair("ge", ">="),
    AbbrevPair("nt", "!"), AbbrevPair("aa", "&&"), AbbrevPair("oo", "||"), AbbrevPair("pp", "++"),
    AbbrevPair("mm", "--"), AbbrevPair("cm", ","), AbbrevPair("pm", "->*"), AbbrevPair("pt", "->"),
    AbbrevPair("cl", "()"), AbbrevPair("ix", "[]"), AbbrevPair("qu", "?"), AbbrevPair("st", "sizeof"),
    AbbrevPair("sz", "sizeof")
  ]

  /** Builtin types. */
  const BUILTIN_TYPES: AbbrevTable := [
    AbbrevPair("v", "void"), AbbrevPair("w", "wchar_t"), AbbrevPair("b", "bool"), AbbrevPair("c", "char"),
    AbbrevPair("a", "signed char"), AbbrevPair("h", "unsigned char"), AbbrevPair("s", "short"),
    AbbrevPair("t", "unsigned short"), AbbrevPair("i", "int"), AbbrevPair("j", "unsigned int"),
    AbbrevPair("l", "long"), AbbrevPair("m", "unsigned long"), AbbrevPair("x", "long long"),
    AbbrevPair("y", "unsigned long long"), AbbrevPair("n", "__int128"), AbbrevPair("o", "unsigned __int128"),
    AbbrevPair("f", "float"), AbbrevPair("d", "double"), AbbrevPair("e", "long double"),
    AbbrevPair("g", "__float128"), AbbrevPair("z", "ellipsis")
  ]

  /** Standard substitutions. */
  const SUBSTITUTIONS: AbbrevTable := [
    AbbrevPair("St", ""), AbbrevPair("Sa", "allocator"), AbbrevPair("Sb", "basic_string"),
    AbbrevPair("Ss", "string"), AbbrevPair("Si", "istream"), AbbrevPair("So", "ostream"),
    AbbrevPair("Sd", "iostream")
  ]

  /** The demangler's grammar over a mangled name. */
  function Itanium(mangled: CString): Grammar { Grammar(mangled, OPERATORS, BUILTIN_TYPES, SUBSTITUTIONS) }
}
