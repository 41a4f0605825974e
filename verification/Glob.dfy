/** Glob matching of module patterns against file base names. */
module Glob {

  /** A pattern of literal characters, `?` for any one character and `*` for any run of characters. */
  ghost predicate Matches(p: string, t: string)
    decreases |p|
  {
    if p == "" then t == ""
    else if p[0] == '*' then exists k :: 0 <= k <= |t| && Matches(p[1..], t[k..])
    else t != "" && (p[0] == '?' || p[0] == t[0]) && Matches(p[1..], t[1..])
  }

  /** What SafeFNMatch_ computes. */
  function SafeMatch(p: string, t: string): bool
    decreases |p|, 0, |t|
  {
    if p == "" then t == ""
    else if t == "" then p == "*"
    else if p[0] == t[0] || p[0] == '?' then SafeMatch(p[1..], t[1..])
    else p[0] == '*' && (p == "*" || SomeSuffix(p[1..], t))
  }

  /** Some non-empty suffix matches. */
  function SomeSuffix(p: string, t: string): bool
    requires t != ""
    decreases |p|, 1, |t|
  {
    SafeMatch(p, t) || (|t| > 1 && SomeSuffix(p, t[1..]))
  }

  method SafeFNMatch(pattern: string, str: string) returns (r: bool)
    ensures r == SafeMatch(pattern, str)
    decreases |pattern|
  {
    var p, s := 0, 0;
    while true
      invariant p <= |pattern| && s <= |str|
      invariant SafeMatch(pattern, str) == SafeMatch(pattern[p..], str[s..])
      decreases |pattern| - p
    {
      if p == |pattern| && s == |str| { return true; }
      if p == |pattern| { return false; }
      if s == |str| { return p + 1 == |pattern| && pattern[p] == '*'; }
      assert pattern[p..][1..] == pattern[p + 1..] && str[s..][1..] == str[s + 1..];
      if pattern[p] == str[s] || pattern[p] == '?' {
        p, s := p + 1, s + 1;
        continue;
      }
      if pattern[p] == '*' {
        if p + 1 == |pattern| { return true; }
        while true
          invariant s < |str| && p + 1 < |pattern|
          invariant SafeMatch(pattern, str) == SomeSuffix(pattern[p + 1..], str[s..])
          decreases |str| - s
        {
          var rest := SafeFNMatch(pattern[p + 1..], str[s..]);
          if rest { return true; }
          assert str[s..][1..] == str[s + 1..];
          s := s + 1;
          if s == |str| { return false; }
        }
      }
      return false;
    }
  }

  // ---------- soundness ----------

  /** Whatever the text, an accepted one matches. */
  lemma {:induction false} Sound(p: string, t: string)
    requires SafeMatch(p, t)
    ensures Matches(p, t)
    decreases |p|, 0, |t|
  {
    if p == "" {
    } else if t == "" {
      assert t[0..] == t && Matches(p[1..], t[0..]);
    } else if p[0] == t[0] || p[0] == '?' {
      Sound(p[1..], t[1..]);
      if p[0] == '*' {
        assert Matches(p[1..], t[1..]);
      }
    } else if p == "*" {
      assert Matches(p[1..], t[|t|..]);
    } else {
      var k := SoundSuffix(p[1..], t);
      assert Matches(p[1..], t[k..]);
    }
  }

  lemma {:induction false} SoundSuffix(p: string, t: string) returns (k: nat)
    requires t != "" && SomeSuffix(p, t)
    ensures k < |t| && Matches(p, t[k..])
    decreases |p|, 1, |t|
  {
    if SafeMatch(p, t) {
      Sound(p, t);
      assert t[0..] == t;
      k := 0;
    } else {
      k := SoundSuffix(p, t[1..]);
      assert t[1..][k..] == t[k + 1..];
      k := k + 1;
    }
  }

  // ---------- completeness ----------

  predicate AllStars(p: string) { forall k :: 0 <= k < |p| ==> p[k] == '*' }

  predicate EndsInTwoStars(p: string) { |p| >= 2 && p[|p| - 2] == '*' && p[|p| - 1] == '*' }

  /** Two or more stars at the end of a pattern ask for at least one more character. */
  function Effective(p: string): string
  {
    if p == "" then ""
    else if |p| >= 2 && AllStars(p) then "?*"
    else [p[0]] + Effective(p[1..])
  }

  lemma {:induction false} StarMatchesAll(t: string)
    ensures Matches("*", t)
  {
    assert Matches("*"[1..], t[|t|..]);
  }

  lemma {:induction false} EffectiveNeedsOne(p: string)
    requires !AllStars(p) || |p| >= 2
    ensures !Matches(Effective(p), "")
    decreases |p|
  {
    if |p| >= 2 && AllStars(p) {
    } else if p[0] == '*' {
      assert !AllStars(p[1..]) by {
        var k :| 0 <= k < |p| && p[k] != '*';
        assert p[1..][k - 1] == p[k];
      }
      EffectiveNeedsOne(p[1..]);
      assert Effective(p)[1..] == Effective(p[1..]);
      assert forall k :: 0 <= k <= 0 ==> ""[k..] == "";
    }
  }

  /** For a text without stars, SafeFNMatch_ decides the effective pattern. */
  lemma {:induction false} Exact(p: string, t: string)
    requires '*' !in t
    ensures SafeMatch(p, t) == Matches(Effective(p), t)
    decreases |p|, 0, |t|
  {
    if p == "" {
    } else if t == "" {
      if p == "*" { StarMatchesAll(t); } else { ExactEmpty(p); }
    } else if |p| >= 2 && AllStars(p) {
      Exact(p[1..], t);
      EffectiveOfStars(p[1..], t);
      assert "?*"[1..] == "*";
      StarMatchesAll(t[1..]);
    } else {
      assert Effective(p)[0] == p[0] && Effective(p)[1..] == Effective(p[1..]);
      if p[0] == t[0] || p[0] == '?' {
        Exact(p[1..], t[1..]);
      } else if p == "*" {
        StarMatchesAll(t);
      } else if p[0] == '*' {
        ExactSuffix(p[1..], t);
        assert !AllStars(p[1..]) by { if AllStars(p[1..]) { AllStarsCons(p); } }
        EffectiveNeedsOne(p[1..]);
        assert t[|t|..] == "";
      }
    }
  }

  lemma AllStarsCons(p: string)
    requires p != "" && p[0] == '*' && AllStars(p[1..])
    ensures AllStars(p)
  {
    forall k | 0 <= k < |p| ensures p[k] == '*' { assert k > 0 ==> p[k] == p[1..][k - 1]; }
  }

  lemma ExactEmpty(p: string)
    requires p != "" && p != "*"
    ensures !Matches(Effective(p), "")
  {
    if |p| == 1 { assert p == [p[0]]; }
    EffectiveNeedsOne(p);
  }

  lemma EffectiveOfStars(p: string, t: string)
    requires p != "" && AllStars(p) && t != ""
    ensures Matches(Effective(p), t)
  {
    StarMatchesAll(t[1..]);
    if |p| == 1 {
      assert p == "*" && Effective(p) == "*" + Effective("");
      StarMatchesAll(t);
    } else {
      assert "?*"[1..] == "*";
    }
  }

  lemma {:induction false} ExactSuffix(p: string, t: string)
    requires '*' !in t && t != ""
    ensures SomeSuffix(p, t) == exists k :: 0 <= k < |t| && Matches(Effective(p), t[k..])
    decreases |p|, 1, |t|
  {
    Exact(p, t);
    assert t[0..] == t;
    if |t| > 1 {
      ExactSuffix(p, t[1..]);
      forall k | 0 <= k < |t| - 1 ensures t[1..][k..] == t[k + 1..] {}
      if k :| 0 < k < |t| && Matches(Effective(p), t[k..]) {
        assert t[1..][k - 1..] == t[k..];
      }
    }
  }

  // ---------- exactly when matching is complete ----------

  lemma {:induction false} EffectiveIsSame(p: string)
    requires !EndsInTwoStars(p)
    ensures Effective(p) == p
    decreases |p|
  {
    if p != "" {
      assert |p| >= 2 && AllStars(p) ==> EndsInTwoStars(p);
      assert EndsInTwoStars(p[1..]) ==> EndsInTwoStars(p);
      EffectiveIsSame(p[1..]);
    }
  }

  function Literals(p: string): nat
  {
    if p == "" then 0 else (if p[0] == '*' then 0 else 1) + Literals(p[1..])
  }

  lemma {:induction false} EffectiveLiterals(p: string)
    requires EndsInTwoStars(p)
    ensures Literals(Effective(p)) == Literals(p) + 1
    decreases |p|
  {
    if AllStars(p) {
      NoLiterals(p);
      assert "?*"[1..] == "*" && "*"[1..] == "";
    } else {
      assert |p| > 2;
      assert Effective(p)[1..] == Effective(p[1..]);
      EffectiveLiterals(p[1..]);
    }
  }

  lemma {:induction false} NoLiterals(p: string)
    requires AllStars(p)
    ensures Literals(p) == 0
    decreases |p|
  {
    if p != "" { NoLiterals(p[1..]); }
  }

  lemma {:induction false} LongEnough(p: string, t: string)
    requires Matches(p, t)
    ensures Literals(p) <= |t|
    decreases |p|
  {
    if p == "" {
    } else if p[0] == '*' {
      var k :| 0 <= k <= |t| && Matches(p[1..], t[k..]);
      LongEnough(p[1..], t[k..]);
    } else {
      LongEnough(p[1..], t[1..]);
    }
  }

  /** The shortest text that a pattern matches. */
  function Shortest(p: string): (t: string)
    ensures |t| == Literals(p) && '*' !in t
  {
    if p == "" then ""
    else if p[0] == '*' then Shortest(p[1..])
    else [if p[0] == '?' then 'a' else p[0]] + Shortest(p[1..])
  }

  lemma {:induction false} ShortestMatches(p: string)
    ensures Matches(p, Shortest(p))
    decreases |p|
  {
    if p != "" {
      ShortestMatches(p[1..]);
      var t := Shortest(p);
      if p[0] == '*' {
        assert t[0..] == t && Matches(p[1..], t[0..]);
      } else {
        assert t[1..] == Shortest(p[1..]);
      }
    }
  }

  /** SafeFNMatch_ is glob matching on the texts without stars exactly for the patterns that do not
      end in two stars. */
  lemma CompleteExactlyWhen(p: string)
    ensures (forall t :: '*' !in t ==> SafeMatch(p, t) == Matches(p, t)) <==> !EndsInTwoStars(p)
  {
    if EndsInTwoStars(p) {
      var t := Shortest(p);
      ShortestMatches(p);
      Exact(p, t);
      EffectiveLiterals(p);
      if SafeMatch(p, t) { LongEnough(Effective(p), t); }
      assert SafeMatch(p, t) != Matches(p, t);
    } else {
      EffectiveIsSame(p);
      forall t | '*' !in t ensures SafeMatch(p, t) == Matches(p, t) { Exact(p, t); }
    }
  }

  /** A star in the text is taken for the star of the pattern, and then nothing else is tried. */
  lemma StarInText()
    ensures !SafeMatch("*b", "*xb") && Matches("*b", "*xb")
  {
    assert "*b"[1..] == "b" && "*xb"[1..] == "xb" && "*xb"[2..] == "b";
    assert "b"[1..] == "";
    assert Matches("b", "*xb"[2..]);
  }
}
