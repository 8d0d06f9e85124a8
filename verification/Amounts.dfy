/** Token amounts as decimal text. */
module Amounts {
  import opened Base
  import opened Decimal
  import opened Text

  function StripZeros(s: string): (r: string)
    ensures |r| <= |s|
  {
    if |s| > 0 && s[|s| - 1] == '0' then StripZeros(s[..|s| - 1]) else s
  }

  /** The whole tokens in an amount. */
  function Whole(atoms: nat, decimals: nat): nat {
    DivisionFacts(atoms, Pow10(decimals));
    atoms / Pow10(decimals)
  }

  /** The atoms beyond the whole tokens. */
  function Rest(atoms: nat, decimals: nat): nat {
    DivisionFacts(atoms, Pow10(decimals));
    atoms % Pow10(decimals)
  }

  function Atoms(whole: nat, rest: nat, decimals: nat): nat {
    whole * Pow10(decimals) + rest
  }

  lemma DivisionFacts(n: nat, p: nat)
    requires p > 0
    ensures n / p >= 0 && 0 <= n % p < p && n == n / p * p + n % p
  {
  }

  lemma WholeAndRest(atoms: nat, decimals: nat)
    ensures Rest(atoms, decimals) < Pow10(decimals)
    ensures Atoms(Whole(atoms, decimals), Rest(atoms, decimals), decimals) == atoms
  {
    DivisionFacts(atoms, Pow10(decimals));
  }

  lemma MultiplesApart(a: int, b: int, p: nat)
    requires a > b
    ensures a * p >= b * p + p
    decreases a - b
  {
    if a - b > 1 { MultiplesApart(a - 1, b, p); }
    assert a * p == (a - 1) * p + p;
  }

  lemma DivisionIsUnique(w: int, f: int, q: int, r: int, p: nat)
    requires 0 <= f < p && 0 <= r < p && w * p + f == q * p + r
    ensures w == q && f == r
  {
    if w > q { MultiplesApart(w, q, p); }
    if q > w { MultiplesApart(q, w, p); }
  }

  lemma WholeAndRestOf(whole: nat, rest: nat, decimals: nat)
    requires rest < Pow10(decimals)
    ensures Whole(Atoms(whole, rest, decimals), decimals) == whole
    ensures Rest(Atoms(whole, rest, decimals), decimals) == rest
  {
    var atoms := Atoms(whole, rest, decimals);
    WholeAndRest(atoms, decimals);
    DivisionIsUnique(whole, rest, Whole(atoms, decimals), Rest(atoms, decimals), Pow10(decimals));
  }

  function WithPoint(whole: string, frac: string): string {
    if |frac| > 0 then whole + "." + frac else whole
  }

  function FormatUsdcAmount(atoms: nat, decimals: nat): string {
    WithPoint(Print(Whole(atoms, decimals)), StripZeros(PadStart(Print(Rest(atoms, decimals)), decimals, '0')))
  }

  predicate Number(s: string) {
    |s| > 0 && AllDigits(s)
  }

  /** `/^\d+(\.\d+)?$/`. */
  predicate AmountSyntax(s: string) {
    var parts := Split(s, '.');
    |parts| <= 2 && forall i :: 0 <= i < |parts| ==> Number(parts[i])
  }

  function Fraction(s: string): string {
    var parts := Split(s, '.');
    if |parts| > 1 then parts[1] else ""
  }

  function ParseUsdcInput(value: string, decimals: nat): Option<nat> {
    var trimmed := Trim(value);
    if !AmountSyntax(trimmed) then None
    else
      var whole, frac := Split(trimmed, '.')[0], Fraction(trimmed);
      if |frac| > decimals then None
      else
        PadEndParses(frac, decimals);
        Some(Atoms(Parse(whole), Parse(PadEnd(frac, decimals, '0')), decimals))
  }

  // ----- Reading text -----

  lemma PartsOf(whole: string, frac: string)
    requires Number(whole) && AllDigits(frac)
    ensures var text := WithPoint(whole, frac);
            (Split(text, '.')[0], Fraction(text), Trim(text)) == (whole, frac, text) && AmountSyntax(text)
  {
    SplitOne(whole, '.');
    TrimmedStays(WithPoint(whole, frac));
    if |frac| > 0 {
      SplitFirst(whole, frac, '.');
      SplitOne(frac, '.');
    }
  }

  /** The value read is the exact decimal value: the digits without the point, scaled by the places not given. */
  lemma ParsedValueIsExact(value: string, decimals: nat)
    requires ParseUsdcInput(value, decimals).Some?
    ensures var (whole, frac) := (Split(Trim(value), '.')[0], Fraction(Trim(value)));
            && AllDigits(whole + frac) && |frac| <= decimals
            && ParseUsdcInput(value, decimals).value == Parse(whole + frac) * Pow10(decimals - |frac|)
  {
    var whole, frac := Split(Trim(value), '.')[0], Fraction(Trim(value));
    PadEndParses(frac, decimals);
    ParseAppends(whole, frac);
    PowAdds(|frac|, decimals - |frac|);
    Distribute(Parse(whole), Pow10(|frac|), Parse(frac), Pow10(decimals - |frac|));
  }

  lemma Distribute(w: nat, p: nat, f: nat, q: nat)
    ensures w * (p * q) + f * q == (w * p + f) * q
  {
  }

  // ----- Round trip -----

  lemma {:induction false} StrippedPads(s: string)
    requires AllDigits(s)
    ensures AllDigits(StripZeros(s)) && PadEnd(StripZeros(s), |s|, '0') == s
    ensures |StripZeros(s)| > 0 ==> StripZeros(s)[|StripZeros(s)| - 1] != '0'
  {
    if |s| > 0 && s[|s| - 1] == '0' {
      var t := s[..|s| - 1];
      StrippedPads(t);
      assert PadEnd(StripZeros(s), |s|, '0') == PadEnd(StripZeros(t), |t|, '0') + ['0'];
      assert s == t + ['0'];
    }
  }

  lemma PaddedFraction(frac: nat, decimals: nat)
    requires frac < Pow10(decimals) && decimals > 0
    ensures var p := PadStart(Print(frac), decimals, '0'); |p| == decimals && AllDigits(p) && Parse(p) == frac
  {
    PrintParses(frac);
    PadStartParses(Print(frac), decimals);
    PrintLength(frac, decimals);
  }

  lemma NoFraction()
    ensures StripZeros(PadStart(Print(0), 0, '0')) == "" && Pow10(0) == 1
  {
    assert Print(0) == "0";
    assert StripZeros("0") == StripZeros("0"[..0]);
  }

  /** The fractional digits written for a remainder read back as that remainder. */
  lemma FractionDigits(frac: nat, decimals: nat) returns (f: string)
    requires frac < Pow10(decimals)
    ensures f == StripZeros(PadStart(Print(frac), decimals, '0'))
    ensures AllDigits(f) && |f| <= decimals && AllDigits(PadEnd(f, decimals, '0'))
    ensures Parse(PadEnd(f, decimals, '0')) == frac
    ensures |f| > 0 ==> f[|f| - 1] != '0'
  {
    f := StripZeros(PadStart(Print(frac), decimals, '0'));
    if decimals == 0 {
      NoFraction();
    } else {
      PaddedFraction(frac, decimals);
      StrippedPads(PadStart(Print(frac), decimals, '0'));
    }
  }

  lemma ReadsBack(whole: string, frac: string, decimals: nat)
    requires Number(whole) && AllDigits(frac) && |frac| <= decimals
    ensures AllDigits(PadEnd(frac, decimals, '0'))
    ensures ParseUsdcInput(WithPoint(whole, frac), decimals) ==
            Some(Atoms(Parse(whole), Parse(PadEnd(frac, decimals, '0')), decimals))
  {
    PartsOf(whole, frac);
    PadEndParses(frac, decimals);
  }

  /** Reading what was formatted gives the amount back, for every amount and every number of decimals. */
  lemma FormatParses(atoms: nat, decimals: nat)
    ensures ParseUsdcInput(FormatUsdcAmount(atoms, decimals), decimals) == Some(atoms)
  {
    WholeAndRest(atoms, decimals);
    PrintParses(Whole(atoms, decimals));
    var f := FractionDigits(Rest(atoms, decimals), decimals);
    ReadsBack(Print(Whole(atoms, decimals)), f, decimals);
  }

  // ----- Canonical text -----

  predicate Canonical(s: string) {
    var (whole, frac) := (Split(s, '.')[0], Fraction(s));
    && (|whole| > 1 ==> whole[0] != '0')
    && (|frac| > 0 ==> frac[|frac| - 1] != '0')
  }

  lemma FormatIsCanonical(atoms: nat, decimals: nat)
    ensures Canonical(FormatUsdcAmount(atoms, decimals))
    ensures Trim(FormatUsdcAmount(atoms, decimals)) == FormatUsdcAmount(atoms, decimals)
  {
    WholeAndRest(atoms, decimals);
    var whole := Whole(atoms, decimals);
    if whole > 0 { NoLeadingZero(whole); }
    var f := FractionDigits(Rest(atoms, decimals), decimals);
    PartsOf(Print(whole), f);
  }

  lemma {:induction false} StripUndoesPad(f: string, n: nat)
    requires |f| <= n && (|f| > 0 ==> f[|f| - 1] != '0')
    ensures StripZeros(PadEnd(f, n, '0')) == f
    decreases n
  {
    if |f| < n {
      StripUndoesPad(f, n - 1);
      assert PadEnd(f, n, '0')[..n - 1] == PadEnd(f, n - 1, '0');
    }
  }

  /** Formatting what was read gives the text back exactly if the text has no superfluous zeros or spaces. */
  lemma FormatUndoesParseIff(value: string, decimals: nat)
    requires ParseUsdcInput(value, decimals).Some?
    ensures FormatUsdcAmount(ParseUsdcInput(value, decimals).value, decimals) == value <==>
            Trim(value) == value && Canonical(value)
  {
    var atoms := ParseUsdcInput(value, decimals).value;
    FormatIsCanonical(atoms, decimals);
    if Trim(value) == value && Canonical(value) {
      CanonicalTextReturns(value, decimals);
    }
  }

  lemma SameFraction(frac: string, rest: nat, decimals: nat)
    requires AllDigits(frac) && |frac| <= decimals && (|frac| > 0 ==> frac[|frac| - 1] != '0')
    requires AllDigits(PadEnd(frac, decimals, '0')) && rest == Parse(PadEnd(frac, decimals, '0'))
    ensures rest < Pow10(decimals) && frac == StripZeros(PadStart(Print(rest), decimals, '0'))
  {
    ParseBound(PadEnd(frac, decimals, '0'));
    var f := FractionDigits(rest, decimals);
    ParseInjective(PadEnd(f, decimals, '0'), PadEnd(frac, decimals, '0'));
    StripUndoesPad(f, decimals);
    StripUndoesPad(frac, decimals);
  }

  lemma CanonicalTextReturns(value: string, decimals: nat)
    requires ParseUsdcInput(value, decimals).Some? && Trim(value) == value && Canonical(value)
    ensures FormatUsdcAmount(ParseUsdcInput(value, decimals).value, decimals) == value
  {
    var whole, frac := Split(value, '.')[0], Fraction(value);
    PadEndParses(frac, decimals);
    var rest := Parse(PadEnd(frac, decimals, '0'));
    SameFraction(frac, rest, decimals);
    WholeAndRestOf(Parse(whole), rest, decimals);
    CanonicalIff(whole);
    JoinSplit(value, '.');
    assert Join(Split(value, '.'), '.') == WithPoint(whole, frac);
  }
}
