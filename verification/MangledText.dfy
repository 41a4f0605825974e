/** The text layer shared by the demangler's recogniser and its stateful parser:
    C strings, character classes and the abbreviation tables. */
module MangledText {
  import opened Lists

  /** The characters of a C string before its terminator. */
  type CString = s: string | '\0' !in s

  predicate IsLower(c: char) { 'a' <= c <= 'z' }

  predicate IsAlpha(c: char) { 'a' <= c <= 'z' || 'A' <= c <= 'Z' }

  predicate IsDigit(c: char) { '0' <= c <= '9' }

  /** The character classes that the parsers skip in runs: decimal digits, the lower-case hexadecimal
      digits of a floating-point literal, the base-36 digits of a <seq-id>, and letters. */
  datatype CharKind = Digits | FloatChars | SeqIdChars | Letters
  {
    predicate Has(c: char)
    {
      match this
      case Digits => IsDigit(c)
      case FloatChars => IsDigit(c) || 'a' <= c <= 'f'
      case SeqIdChars => IsDigit(c) || 'A' <= c <= 'Z'
      case Letters => IsAlpha(c)
    }
  }

  function DigitValue(c: char): nat { if IsDigit(c) then (c - '0') as nat else 0 }

  /** The value of a run of decimal digits, most significant first. */
  function DecimalValue(ds: string): nat
  {
    if ds == "" then 0 else DecimalValue(ds[..|ds| - 1]) * 10 + DigitValue(ds[|ds| - 1])
  }

  datatype AbbrevPair = AbbrevPair(abbrev: string, realName: string)
  {
    /** abbrev[k] in the C table, whose strings end with a NUL. */
    function At(k: nat): char { if k < |abbrev| then abbrev[k] else '\0' }
  }

  type AbbrevTable = seq<AbbrevPair>

  /** The first entry whose abbreviation starts with the two given characters. */
  function FindPair(table: AbbrevTable, c0: char, c1: char): (r: Option<string>)
    ensures r.Some? ==> exists p :: p in table && p.At(0) == c0 && p.At(1) == c1 && p.realName == r.value
    ensures r.None? ==> forall p :: p in table ==> !(p.At(0) == c0 && p.At(1) == c1)
  {
    if table == [] then None
    else if table[0].At(0) == c0 && table[0].At(1) == c1 then Some(table[0].realName)
    else FindPair(table[1..], c0, c1)
  }

  /** The first entry whose abbreviation has the given character at position k. */
  function FindChar(table: AbbrevTable, k: nat, c: char): (r: Option<string>)
    ensures r.Some? ==> exists p :: p in table && p.At(k) == c && p.realName == r.value
    ensures r.None? ==> forall p :: p in table ==> p.At(k) != c
  {
    if table == [] then None
    else if table[0].At(k) == c then Some(table[0].realName)
    else FindChar(table[1..], k, c)
  }
}
