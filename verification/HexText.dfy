/** The symbolizer's conversions between 64-bit numbers and text. */
module HexText {
  import opened Lists

  const TWO_64 := 0x1_0000_0000_0000_0000

  function DigitChar(d: nat): char
    requires d < 16
  {
    "0123456789abcdef"[d]
  }

  // ---------- from numbers to text ----------

  /** The number without its last digit. */
  function Upper(i: nat, base: nat): (r: nat)
    requires 2 <= base
    ensures r <= i && (i > 0 ==> r < i) && (r == 0 <==> i < base)
  {
    Quotient(i, base);
    i / base
  }

  /** Its last digit. */
  function Lower(i: nat, base: nat): (r: nat)
    requires 2 <= base
    ensures r < base
  {
    i % base
  }

  lemma Quotient(i: nat, base: nat)
    requires 2 <= base
    ensures i / base <= i && (i > 0 ==> i / base < i) && (i / base == 0 <==> i < base)
  {
    var q := i / base;
    assert i == base * q + i % base;
    assert base * q >= 2 * q;
    assert q >= 1 ==> base * q >= base;
  }

  /** The padding that is left for the other digits. */
  function Less(padding: nat): nat { if padding > 0 then padding - 1 else 0 }

  /** The digits of i in the given base, most significant first, with at least `padding` of them. */
  function Text(i: nat, base: nat, padding: nat): (s: string)
    requires 2 <= base <= 16
    ensures s != ""
    decreases i, padding
  {
    (if Upper(i, base) > 0 || padding > 1 then Text(Upper(i, base), base, Less(padding)) else "")
    + [DigitChar(Lower(i, base))]
  }

  /** How many digits a number has; 0 has one. */
  function DigitCount(i: nat, base: nat): (n: nat)
    requires 2 <= base
    ensures n >= 1
  {
    if i < base then 1 else DigitCount(Upper(i, base), base) + 1
  }

  function Power(base: nat, n: nat): nat { if n == 0 then 1 else base * Power(base, n - 1) }

  /** n digits suffice exactly for the numbers below base^n. */
  lemma {:induction false} DigitCountIs(i: nat, base: nat, n: nat)
    requires 2 <= base && n >= 1
    ensures DigitCount(i, base) <= n <==> i < Power(base, n)
  {
    if n == 1 {
      assert Power(base, 1) == base * Power(base, 0) == base;
    } else {
      DigitCountIs(Upper(i, base), base, n - 1);
      var p := Power(base, n - 1);
      PowerPositive(base, n - 1);
      Below(i, base, p);
    }
  }

  lemma {:induction false} PowerPositive(base: nat, n: nat)
    requires base >= 1
    ensures Power(base, n) >= 1
  {
    if n > 0 { PowerPositive(base, n - 1); }
  }

  lemma Below(i: nat, base: nat, p: nat)
    requires 2 <= base && p >= 1
    ensures Upper(i, base) < p <==> i < base * p
    ensures i < base ==> i < base * p
  {
    var q, r := i / base, i % base;
    assert q == Upper(i, base) && i == base * q + r && r < base;
    Products(q, r, base, p);
  }

  lemma Products(q: nat, r: nat, base: nat, p: nat)
    requires r < base && p >= 1
    ensures q < p <==> base * q + r < base * p
    ensures base * q + r < base ==> base * q + r < base * p
  {
    if q < p {
      assert base * (q + 1) <= base * p;
    } else {
      assert base * q >= base * p;
    }
    assert base * p >= base;
  }

  lemma {:induction false} TextLength(i: nat, base: nat, padding: nat)
    requires 2 <= base <= 16
    ensures |Text(i, base, padding)| == Max(DigitCount(i, base), padding)
    decreases i, padding
  {
    hide Upper, DigitChar;
    if Upper(i, base) > 0 || padding > 1 {
      TextLength(Upper(i, base), base, Less(padding));
    }
  }

  function Reversed(s: string): (r: string)
    ensures |r| == |s|
  {
    if s == "" then "" else Reversed(s[1..]) + [s[0]]
  }

  lemma {:induction false} ReversedAt(s: string)
    ensures forall k :: 0 <= k < |s| ==> Reversed(s)[k] == s[|s| - 1 - k]
  {
    if s != "" { ReversedAt(s[1..]); }
  }

  lemma {:induction false} ReversedAppend(s: string, c: char)
    ensures Reversed(s + [c]) == [c] + Reversed(s)
    decreases |s|
  {
    if s != "" {
      assert (s + [c])[1..] == s[1..] + [c];
      ReversedAppend(s[1..], c);
    }
  }

  /** itoa_r() on the first sz characters of the buffer */
  method ItoaR(i: nat, buf: array<char>, sz: nat, base: nat, padding: nat) returns (ok: bool)
    requires i < TWO_64 && sz <= buf.Length
    modifies buf
    ensures ok <==> 2 <= base <= 16 && Max(DigitCount(i, base), padding) + 1 <= sz
    ensures ok ==> var text := Text(i, base, padding); |text| < sz && buf[..|text|] == text && buf[|text|] == '\0'
    ensures !ok && sz > 0 ==> buf[0] == '\0'
    ensures forall k :: sz <= k < buf.Length ==> buf[k] == old(buf[k])
  {
    var n := 1;
    if n > sz {
      return false;
    }
    if base < 2 || base > 16 {
      buf[0] := '\0';
      return false;
    }
    TextLength(i, base, padding);
    var length;
    ok, length := PutDigits(i, buf, sz, base, padding);
    if !ok {
      buf[0] := '\0';
      return false;
    }
    buf[length] := '\0';
    ReverseInPlace(buf, length);
    assert buf[..length] == Reversed(Reversed(Text(i, base, padding)));
    ReversedTwice(Text(i, base, padding));
  }

  lemma ReversedTwice(s: string)
    ensures Reversed(Reversed(s)) == s
  {
    ReversedAt(s);
    ReversedAt(Reversed(s));
  }

  /** One round of the loop: the digits below go behind the last digit of i. */
  lemma TextStep(i: nat, base: nat, padding: nat, low: string)
    requires 2 <= base <= 16
    ensures
      var more := Upper(i, base) > 0 || Less(padding) > 0;
      var rest := if more then Text(Upper(i, base), base, Less(padding)) else "";
      Text(i, base, padding) + Reversed(low) == rest + Reversed(low + [DigitChar(Lower(i, base))])
  {
    hide DigitChar;
    ReversedAppend(low, DigitChar(Lower(i, base)));
  }

  method Put(buf: array<char>, ptr: nat, c: char)
    requires ptr < buf.Length
    modifies buf
    ensures buf[..ptr + 1] == old(buf[..ptr]) + [c]
    ensures forall k :: ptr < k < buf.Length ==> buf[k] == old(buf[k])
  {
    buf[ptr] := c;
  }

  /** The first loop of itoa_r(): the digits, least significant first. */
  method PutDigits(value: nat, buf: array<char>, sz: nat, base: nat, pad: nat) returns (ok: bool, ptr: nat)
    requires 1 <= sz <= buf.Length && 2 <= base <= 16
    modifies buf
    ensures ok <==> |Text(value, base, pad)| + 1 <= sz
    ensures ok ==> ptr == |Text(value, base, pad)| && buf[..ptr] == Reversed(Text(value, base, pad))
    ensures forall k :: sz <= k < buf.Length ==> buf[k] == old(buf[k])
  {
    hide Text, DigitChar, Reversed, Upper, Lower;
    var i: nat, padding: nat, n: nat := value, pad, 1;
    ptr := 0;
    var more := true;
    ghost var low := "";
    ReversedTwice(low);
    while more
      invariant n == ptr + 1 <= sz
      invariant low == buf[..ptr]
      invariant Text(value, base, pad) == (if more then Text(i, base, padding) else "") + Reversed(low)
      invariant forall k :: sz <= k < buf.Length ==> buf[k] == old(buf[k])
      decreases more, i, padding
    {
      n := n + 1;
      if n > sz {
        return false, ptr;
      }
      TextStep(i, base, padding, low);
      low := low + [DigitChar(Lower(i, base))];
      Put(buf, ptr, DigitChar(Lower(i, base)));
      ptr := ptr + 1;
      i := Upper(i, base);  // i / base
      if padding > 0 {
        padding := padding - 1;
      }
      more := i > 0 || padding > 0;
    }
    assert "" + Reversed(low) == Reversed(low);
    ReversedTwice(low);
    return true, ptr;
  }

  /** The second loop of itoa_r() */
  method ReverseInPlace(buf: array<char>, length: nat)
    requires length <= buf.Length
    modifies buf
    ensures buf[..length] == Reversed(old(buf[..length]))
    ensures forall k :: length <= k < buf.Length ==> buf[k] == old(buf[k])
  {
    var start, ptr := 0, length as int - 1;
    while ptr > start
      invariant start + ptr == length as int - 1 && 0 <= start <= ptr + 2
      invariant forall k :: 0 <= k < start || ptr < k < length ==> buf[k] == old(buf[length - 1 - k])
      invariant forall k :: start <= k <= ptr || length <= k < buf.Length ==> buf[k] == old(buf[k])
      decreases ptr - start
    {
      var ch := buf[ptr];
      buf[ptr] := buf[start];
      buf[start] := ch;
      start := start + 1;
      ptr := ptr - 1;
    }
    ReversedAt(old(buf[..length]));
  }

  // ---------- from text to numbers ----------

  predicate IsHex(c: char) { '0' <= c <= '9' || 'A' <= c <= 'F' || 'a' <= c <= 'f' }

  predicate AllHex(s: string) { forall k :: 0 <= k < |s| ==> IsHex(s[k]) }

  /** The value of a hexadecimal digit, as GetHex computes it from the character code. */
  function HexDigit(c: char): nat
    requires IsHex(c)
  {
    if c < 'A' then (c - '0') as nat else (c as nat) % 16 + 9
  }

  /** The value of a run of hexadecimal digits in 64 bits. */
  function HexValue(s: string): (h: nat)
    requires AllHex(s)
    ensures h < TWO_64
  {
    if s == "" then 0
    else
      assert IsHex(s[|s| - 1]);
      (HexValue(s[..|s| - 1]) * 16) % TWO_64 + HexDigit(s[|s| - 1])
  }

  /** GetHex() on text[start..end] */
  method GetHex(text: string, start: nat, end: nat) returns (p: nat, hex: nat)
    requires start <= end <= |text|
    ensures start <= p <= end && (p < end ==> !IsHex(text[p]))
    ensures AllHex(text[start..p]) && hex == HexValue(text[start..p])
  {
    hex := 0;
    p := start;
    while p < end && IsHex(text[p])
      invariant start <= p <= end
      invariant AllHex(text[start..p]) && hex == HexValue(text[start..p])
    {
      assert text[start..p + 1] == text[start..p] + [text[p]];
      HexAppend(text[start..p], text[p]);
      hex := (hex * 16) % TWO_64 + HexDigit(text[p]);
      p := p + 1;
    }
  }

  lemma DigitIsHex(d: nat)
    requires d < 16
    ensures IsHex(DigitChar(d)) && HexDigit(DigitChar(d)) == d
  {}

  lemma HexStep(i: nat)
    requires i < TWO_64
    ensures Upper(i, 16) < TWO_64 && (Upper(i, 16) * 16) % TWO_64 + Lower(i, 16) == i
  {
    assert (i / 16 * 16) % TWO_64 == i / 16 * 16;
  }

  lemma HexAppend(s: string, c: char)
    requires AllHex(s) && IsHex(c)
    ensures HexValue(s + [c]) == (HexValue(s) * 16) % TWO_64 + HexDigit(c)
  {
    hide HexDigit;
    assert (s + [c])[..|s|] == s;
  }

  /** Hexadecimal text, padded or not, has the value it was made from. */
  lemma {:induction false} TextValue(i: nat, padding: nat)
    requires i < TWO_64
    ensures AllHex(Text(i, 16, padding)) && HexValue(Text(i, 16, padding)) == i
    decreases i, padding
  {
    hide DigitChar, HexDigit, IsHex, Upper, Lower;
    DigitIsHex(Lower(i, 16));
    HexStep(i);
    var more := Upper(i, 16) > 0 || padding > 1;
    var high := if more then Text(Upper(i, 16), 16, Less(padding)) else "";
    if more {
      TextValue(Upper(i, 16), Less(padding));
    }
    assert Text(i, 16, padding) == high + [DigitChar(Lower(i, 16))];
    HexAppend(high, DigitChar(Lower(i, 16)));
  }

  /** The number that digits denote in a base. */
  function Number(s: string, base: nat): nat
    requires AllHex(s)
  {
    if s == "" then 0
    else
      assert IsHex(s[|s| - 1]);
      Number(s[..|s| - 1], base) * base + HexDigit(s[|s| - 1])
  }

  lemma Parts(i: nat, base: nat)
    requires 2 <= base
    ensures Upper(i, base) * base + Lower(i, base) == i
  {}

  /** What one more digit stands for. */
  lemma NumberAppend(s: string, d: char, base: nat)
    requires AllHex(s) && IsHex(d)
    ensures AllHex(s + [d]) && Number(s + [d], base) == Number(s, base) * base + HexDigit(d)
  {
    hide IsHex, HexDigit;
    assert (s + [d])[..|s|] == s;
  }

  /** In every base, the text denotes the number it was made from. */
  lemma {:induction false} TextDenotes(i: nat, base: nat, padding: nat)
    requires 2 <= base <= 16
    ensures AllHex(Text(i, base, padding)) && Number(Text(i, base, padding), base) == i
    decreases i, padding
  {
    hide DigitChar, HexDigit, IsHex, Upper, Lower, Number;
    var d := DigitChar(Lower(i, base));
    DigitIsHex(Lower(i, base));
    Parts(i, base);
    if Upper(i, base) > 0 || padding > 1 {
      var high := Text(Upper(i, base), base, Less(padding));
      TextDenotes(Upper(i, base), base, Less(padding));
      NumberAppend(high, d, base);
    } else {
      NumberOfNothing(base);
      NumberAppend("", d, base);
    }
  }

  lemma NumberOfNothing(base: nat)
    ensures Number("", base) == 0
  {}

  /** What itoa_r writes in base 16, GetHex reads back completely. */
  method RoundTrip(i: nat, buf: array<char>, sz: nat, padding: nat) returns (ok: bool, p: nat, hex: nat)
    requires i < TWO_64 && sz <= buf.Length
    modifies buf
    ensures ok <==> Max(DigitCount(i, 16), padding) + 1 <= sz
    ensures ok ==> p == Max(DigitCount(i, 16), padding) && hex == i
  {
    ok := ItoaR(i, buf, sz, 16, padding);
    p, hex := 0, 0;
    if ok {
      TextLength(i, 16, padding);
      TextValue(i, padding);
      var length := |Text(i, 16, padding)|;
      p, hex := GetHex(buf[..length], 0, length);
      assert forall k :: 0 <= k < length ==> IsHex(buf[..length][k]);
      assert buf[..length][0..p] == buf[..length];
    }
  }
}
