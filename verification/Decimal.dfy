/**
 The exact decimal parser and printer for token amounts.
 */
module Decimal {
  import opened Common

  const MAX_DECIMALS: int := 36
  const MAX_UINT256: nat := 0xFFFFFFFF_FFFFFFFF_FFFFFFFF_FFFFFFFF_FFFFFFFF_FFFFFFFF_FFFFFFFF_FFFFFFFF

  // ---- Digit strings -----------------------------------------------------------------------------------

  predicate IsDigit(c: char) {
    '0' <= c <= '9'
  }

  predicate AllDigits(s: string) {
    forall i :: 0 <= i < |s| ==> IsDigit(s[i])
  }

  type Digits = s: string | AllDigits(s)

  function Pow10(k: nat): (p: nat)
    ensures p > 0
  {
    if k == 0 then 1 else 10 * Pow10(k - 1)
  }

  function DigitOf(c: char): nat
    requires IsDigit(c)
  {
    c as int - '0' as int
  }

  function CharOf(d: nat): (c: char)
    requires d < 10
    ensures IsDigit(c) && DigitOf(c) == d
  {
    ('0' as int + d) as char
  }

  function NatOf(s: Digits): nat {
    if s == "" then 0 else NatOf(s[..|s| - 1]) * 10 + DigitOf(s[|s| - 1])
  }

  /** A number in decimal, without leading zeros. */
  function Numeral(n: nat): (s: Digits)
    ensures s != "" && (s[0] == '0' ==> n == 0 && s == "0")
  {
    if n < 10 then [CharOf(n)] else Numeral(n / 10) + [CharOf(n % 10)]
  }

  function Zeros(k: nat): (s: Digits)
    ensures |s| == k
  {
    seq(k, _ => '0')
  }

  function TrimLeft(s: string): (t: string)
    ensures AllDigits(s) ==> AllDigits(t)
  {
    if s != "" && s[0] == '0' then TrimLeft(s[1..]) else s
  }

  function TrimRight(s: string): (t: string)
    ensures |t| <= |s| && t == s[..|t|]
    ensures t != "" ==> t[|t| - 1] != '0'
  {
    if s != "" && s[|s| - 1] == '0' then TrimRight(s[..|s| - 1]) else s
  }

  lemma {:induction false} NumeralRoundTrip(n: nat)
    ensures NatOf(Numeral(n)) == n
  {
    if n >= 10 {
      NumeralRoundTrip(n / 10);
      var s := Numeral(n);
      assert s[..|s| - 1] == Numeral(n / 10);
    } else {
      assert Numeral(n)[..0] == "";
    }
  }

  /** Without leading zeros the numeral is the only way to write its value. */
  lemma {:induction false} NumeralUnique(s: Digits)
    requires s != "" && (s[0] == '0' ==> s == "0")
    ensures Numeral(NatOf(s)) == s
  {
    var init, last := s[..|s| - 1], DigitOf(s[|s| - 1]);
    if init == "" {
      assert NatOf(s) == last && s == [s[0]];
    } else {
      NumeralUnique(init);
      assert Numeral(0) == "0";
      assert NatOf(init) != 0;
      assert NatOf(s) / 10 == NatOf(init) && NatOf(s) % 10 == last;
      assert s == init + [s[|s| - 1]];
    }
  }

  lemma {:induction false} NumeralLength(n: nat, k: nat)
    requires n < Pow10(k) && 0 < k
    ensures |Numeral(n)| <= k
    decreases k
  {
    if n >= 10 {
      assert k > 1 by {
        assert Pow10(1) == 10;
      }
      NumeralLength(n / 10, k - 1);
    }
  }

  lemma {:induction false} NatOfBound(s: Digits)
    ensures NatOf(s) < Pow10(|s|)
  {
    if s != "" {
      NatOfBound(s[..|s| - 1]);
    }
  }

  lemma {:induction false} NatOfConcat(a: Digits, b: Digits)
    ensures AllDigits(a + b)
    ensures NatOf(a + b) == NatOf(a) * Pow10(|b|) + NatOf(b)
  {
    if b == "" {
      assert a + b == a;
    } else {
      var init := b[..|b| - 1];
      NatOfConcat(a, init);
      assert (a + b)[..|a + b| - 1] == a + init;
      assert NatOf(a) * Pow10(|b|) == NatOf(a) * Pow10(|init|) * 10;
    }
  }

  lemma {:induction false} NatOfZeros(k: nat)
    ensures NatOf(Zeros(k)) == 0
  {
    if k > 0 {
      NatOfZeros(k - 1);
      assert Zeros(k)[..k - 1] == Zeros(k - 1);
    }
  }

  lemma {:induction false} TrimLeftSame(s: Digits)
    ensures NatOf(TrimLeft(s)) == NatOf(s)
  {
    if s != "" && s[0] == '0' {
      TrimLeftSame(s[1..]);
      NatOfConcat([s[0]], s[1..]);
      assert s == [s[0]] + s[1..];
      assert NatOf([s[0]]) == 0 by {
        assert [s[0]][..0] == "";
      }
    }
  }

  /** At equal length a digit string is determined by its value. */
  lemma {:induction false} SameLengthUnique(a: Digits, b: Digits)
    requires |a| == |b| && NatOf(a) == NatOf(b)
    ensures a == b
  {
    if a != "" {
      var n := |a| - 1;
      assert NatOf(a) / 10 == NatOf(a[..n]) && NatOf(b) / 10 == NatOf(b[..n]);
      assert NatOf(a) % 10 == DigitOf(a[n]) && NatOf(b) % 10 == DigitOf(b[n]);
      SameLengthUnique(a[..n], b[..n]);
      assert a == a[..n] + [a[n]] && b == b[..n] + [b[n]];
    }
  }

  lemma {:induction false} TrimRightPads(s: string)
    ensures TrimRight(s) + Zeros(|s| - |TrimRight(s)|) == s
  {
    if s != "" && s[|s| - 1] == '0' {
      TrimRightPads(s[..|s| - 1]);
      var t := TrimRight(s);
      assert s == s[..|s| - 1] + ['0'];
      assert Zeros(|s| - |t|) == Zeros(|s| - 1 - |t|) + ['0'];
    }
  }

  lemma {:induction false} TrimRightOfPadded(t: string, k: nat)
    requires t != "" ==> t[|t| - 1] != '0'
    ensures TrimRight(t + Zeros(k)) == t
  {
    if k == 0 {
      assert t + Zeros(0) == t;
    } else {
      assert (t + Zeros(k))[..|t| + k - 1] == t + Zeros(k - 1);
      TrimRightOfPadded(t, k - 1);
    }
  }

  // ---- The parser and the printers ----------------------------------------------------------------------

  /** The regular expression ^[0-9]+(\.[0-9]+)?$, left to right. */
  predicate Matches(s: string) {
    s != "" && IsDigit(s[0]) && MatchesRest(s[1..])
  }

  predicate MatchesRest(s: string) {
    s == ""
    || (IsDigit(s[0]) && MatchesRest(s[1..]))
    || (s[0] == '.' && |s| > 1 && AllDigits(s[1..]))
  }

  function Split(s: string): (parts: seq<string>)
    ensures parts != []
  {
    if s == "" then [""]
    else if s[0] == '.' then [""] + Split(s[1..])
    else
      var rest := Split(s[1..]);
      [[s[0]] + rest[0]] + rest[1..]
  }

  datatype ParseError = DecimalsTooLarge | BadFormat | TooManyDecimals | Overflow

  function ParseUnits(amount: string, decimals: int): Result<nat, ParseError> {
    if decimals < 0 || decimals > MAX_DECIMALS then Err(DecimalsTooLarge)
    else if !Matches(amount) then Err(BadFormat)
    else
      MatchesSplits(amount);
      var parts := Split(amount);
      var whole: Digits := parts[0];
      var frac: Digits := if |parts| == 2 then parts[1] else "";
      if |frac| > decimals then Err(TooManyDecimals)
      else
        var combined: Digits := TrimLeft(whole + (frac + Zeros(decimals - |frac|)));
        if combined == "" then Ok(0)
        else if NatOf(combined) > MAX_UINT256 then Err(Overflow)
        else Ok(NatOf(combined))
  }

  /** An absent number prints as zero. */
  function FormatUnits(raw: Option<nat>, decimals: nat): string {
    if raw.None? || raw.value == 0 then "0"
    else if decimals == 0 then Numeral(raw.value)
    else WithFraction(raw.value, decimals)
  }

  function QuoRem(n: nat, p: nat): (r: (nat, nat))
    requires 0 < p
    ensures n == r.0 * p + r.1 && r.1 < p
  {
    assert n == n / p * p + n % p;
    (n / p, n % p)
  }

  function WithFraction(n: nat, decimals: nat): string
    requires decimals > 0
  {
    var (whole, frac) := QuoRem(n, Pow10(decimals));
    if frac == 0 then Numeral(whole)
    else Numeral(whole) + "." + TrimRight(Padded(frac, decimals))
  }

  function FormatETH(wei: nat): string {
    var (whole, fraction) := QuoRem(wei, Pow10(18));
    if fraction == 0 then Numeral(whole)
    else
      NumeralLength(fraction, 18);
      var digits := Numeral(fraction);
      Numeral(whole) + "." + TrimRight(Zeros(18 - |digits|) + digits)
  }

  /** A fraction with all its digits. */
  function Padded(frac: nat, decimals: nat): (s: Digits)
    requires frac < Pow10(decimals) && 0 < decimals
    ensures |s| == decimals
  {
    NumeralLength(frac, decimals);
    Zeros(decimals - |Numeral(frac)|) + Numeral(frac)
  }

  // ---- What the parser accepts ----------------------------------------------------------------------------

  /** Digits, or digits, a point and digits. */
  ghost predicate Written(s: string, whole: Digits, frac: Digits) {
    whole != "" && s == if frac == "" then whole else whole + "." + frac
  }

  lemma {:induction false} SplitDigits(s: Digits)
    ensures Split(s) == [s]
  {
    if s != "" {
      SplitDigits(s[1..]);
      assert s == [s[0]] + s[1..];
    }
  }

  lemma {:induction false} SplitPoint(whole: Digits, rest: string)
    ensures Split(whole + "." + rest) == [whole] + Split(rest)
  {
    var s := whole + "." + rest;
    if whole == "" {
      assert s[1..] == rest;
    } else {
      assert s[1..] == whole[1..] + "." + rest;
      SplitPoint(whole[1..], rest);
      assert whole == [whole[0]] + whole[1..];
    }
  }

  lemma {:induction false} DigitsMatch(s: Digits)
    ensures MatchesRest(s)
  {
    if s != "" {
      DigitsMatch(s[1..]);
    }
  }

  lemma {:induction false} PointMatches(whole: Digits, frac: Digits)
    requires frac != ""
    ensures MatchesRest(whole + "." + frac)
  {
    var s := whole + "." + frac;
    if whole == "" {
      assert s[1..] == frac;
    } else {
      assert s[1..] == whole[1..] + "." + frac;
      PointMatches(whole[1..], frac);
    }
  }

  lemma WrittenMatches(s: string, whole: Digits, frac: Digits)
    requires Written(s, whole, frac)
    ensures Matches(s)
    ensures Split(s) == if frac == "" then [whole] else [whole, frac]
  {
    if frac == "" {
      DigitsMatch(whole[1..]);
      SplitDigits(whole);
    } else {
      assert s[1..] == whole[1..] + "." + frac;
      PointMatches(whole[1..], frac);
      SplitPoint(whole, frac);
      SplitDigits(frac);
    }
  }

  lemma {:induction false} RestIsWritten(s: string) returns (whole: Digits, frac: Digits)
    requires MatchesRest(s)
    ensures s == if frac == "" then whole else whole + "." + frac
  {
    if s == "" {
      whole, frac := "", "";
    } else if IsDigit(s[0]) {
      whole, frac := RestIsWritten(s[1..]);
      whole := [s[0]] + whole;
    } else {
      whole, frac := "", s[1..];
    }
  }

  /** The regular expression matches exactly the written numbers. */
  lemma MatchIsWritten(s: string) returns (whole: Digits, frac: Digits)
    requires Matches(s)
    ensures Written(s, whole, frac)
  {
    whole, frac := RestIsWritten(s[1..]);
    whole := [s[0]] + whole;
  }

  lemma MatchesSplits(s: string)
    requires Matches(s)
    ensures var parts := Split(s); 1 <= |parts| <= 2 && AllDigits(parts[0]) && (|parts| == 2 ==> AllDigits(parts[1]))
  {
    var whole, frac := MatchIsWritten(s);
    WrittenMatches(s, whole, frac);
  }

  /** The amount that a written number stands for, in the smallest unit. */
  function Units(whole: Digits, frac: Digits, decimals: nat): nat
    requires |frac| <= decimals
  {
    NatOf(whole) * Pow10(decimals) + NatOf(frac) * Pow10(decimals - |frac|)
  }

  lemma UnitsOfDigits(whole: Digits, frac: Digits, decimals: nat)
    requires |frac| <= decimals
    ensures var padded := frac + Zeros(decimals - |frac|);
      && NatOf(padded) == NatOf(frac) * Pow10(decimals - |frac|) < Pow10(decimals)
      && AllDigits(whole + padded) && NatOf(whole + padded) == Units(whole, frac, decimals)
  {
    NatOfConcat(frac, Zeros(decimals - |frac|));
    NatOfZeros(decimals - |frac|);
    NatOfBound(frac + Zeros(decimals - |frac|));
    NatOfConcat(whole, frac + Zeros(decimals - |frac|));
  }

  /** The outcome on every written number. */
  lemma ParseWritten(s: string, decimals: int, whole: Digits, frac: Digits)
    requires 0 <= decimals <= MAX_DECIMALS && Written(s, whole, frac)
    ensures ParseUnits(s, decimals)
      == if |frac| > decimals then Err(TooManyDecimals)
         else if Units(whole, frac, decimals) > MAX_UINT256 then Err(Overflow)
         else Ok(Units(whole, frac, decimals))
  {
    WrittenMatches(s, whole, frac);
    if |frac| <= decimals {
      UnitsOfDigits(whole, frac, decimals);
      TrimLeftSame(whole + (frac + Zeros(decimals - |frac|)));
    }
  }

  /** The parser accepts exactly the written numbers with few enough decimals and a value in range, and
      gives their value; each other input gets the error of the first condition it breaks. */
  lemma ParseExactly(s: string, decimals: int)
    ensures forall n :: ParseUnits(s, decimals) == Ok(n) <==>
      && 0 <= decimals <= MAX_DECIMALS && n <= MAX_UINT256
      && exists whole: Digits, frac: Digits ::
           Written(s, whole, frac) && |frac| <= decimals && Units(whole, frac, decimals) == n
    ensures ParseUnits(s, decimals) == Err(DecimalsTooLarge) <==> !(0 <= decimals <= MAX_DECIMALS)
    ensures ParseUnits(s, decimals) == Err(BadFormat) <==>
      0 <= decimals <= MAX_DECIMALS && !exists whole: Digits, frac: Digits :: Written(s, whole, frac)
  {
    if 0 <= decimals <= MAX_DECIMALS {
      forall whole: Digits, frac: Digits | Written(s, whole, frac)
        ensures Matches(s)
        ensures ParseUnits(s, decimals)
          == if |frac| > decimals then Err(TooManyDecimals)
             else if Units(whole, frac, decimals) > MAX_UINT256 then Err(Overflow)
             else Ok(Units(whole, frac, decimals))
      {
        WrittenMatches(s, whole, frac);
        ParseWritten(s, decimals, whole, frac);
      }
      if Matches(s) {
        var whole, frac := MatchIsWritten(s);
        ParseWritten(s, decimals, whole, frac);
      }
    }
  }

  // ---- What the printer writes ------------------------------------------------------------------------------

  /** No leading zero before the units digit, no trailing zero after the point. */
  ghost predicate Canonical(s: string, whole: Digits, frac: Digits) {
    && Written(s, whole, frac)
    && (whole[0] == '0' ==> whole == "0")
    && (frac != "" ==> frac[|frac| - 1] != '0')
  }

  lemma {:induction false} ZeroOnlyZeros(s: Digits)
    requires NatOf(s) == 0
    ensures s == Zeros(|s|)
  {
    NatOfZeros(|s|);
    SameLengthUnique(s, Zeros(|s|));
  }

  lemma PaddedReads(frac: nat, decimals: nat)
    requires 0 < frac < Pow10(decimals) && 0 < decimals
    ensures NatOf(Padded(frac, decimals)) == frac
    ensures TrimRight(Padded(frac, decimals)) != "" && AllDigits(TrimRight(Padded(frac, decimals)))
  {
    NumeralRoundTrip(frac);
    NumeralLength(frac, decimals);
    LeadingZeros(decimals - |Numeral(frac)|, Numeral(frac));
    NotAllZeros(Padded(frac, decimals));
  }

  lemma LeadingZeros(k: nat, s: Digits)
    ensures AllDigits(Zeros(k) + s) && NatOf(Zeros(k) + s) == NatOf(s)
  {
    NatOfConcat(Zeros(k), s);
    NatOfZeros(k);
  }

  lemma NotAllZeros(s: Digits)
    requires NatOf(s) > 0
    ensures TrimRight(s) != "" && AllDigits(TrimRight(s))
  {
    TrimRightPads(s);
    NatOfZeros(|s|);
  }

  /** The two parts of what is printed. */
  function WholePart(n: nat, decimals: nat): Digits {
    Numeral(QuoRem(n, Pow10(decimals)).0)
  }

  function FractionPart(n: nat, decimals: nat): Digits {
    CutFraction(QuoRem(n, Pow10(decimals)).1, decimals)
  }

  function CutFraction(frac: nat, decimals: nat): (cut: Digits)
    requires frac < Pow10(decimals)
    ensures |cut| <= decimals && (cut != "" ==> cut[|cut| - 1] != '0')
    ensures cut == "" <==> frac == 0
    ensures NatOf(cut) * Pow10(decimals - |cut|) == frac
  {
    if frac == 0 then ""
    else
      assert decimals > 0 by { assert Pow10(0) == 1; }
      PaddedReads(frac, decimals);
      var cut: Digits := TrimRight(Padded(frac, decimals));
      TrimRightPads(Padded(frac, decimals));
      UnitsOfDigits("", cut, decimals);
      cut
  }

  lemma FormatIs(n: nat, decimals: nat)
    ensures Written(FormatUnits(Some(n), decimals), WholePart(n, decimals), FractionPart(n, decimals))
  {
    var p := Pow10(decimals);
    var (whole, frac) := QuoRem(n, p);
    if n == 0 {
      DivMod(0, 0, p);
    } else if decimals == 0 {
      assert p == 1;
    }
  }

  /** What is printed is canonical and stands for the number. */
  lemma FormatIsCanonical(n: nat, decimals: nat)
    ensures Canonical(FormatUnits(Some(n), decimals), WholePart(n, decimals), FractionPart(n, decimals))
    ensures |FractionPart(n, decimals)| <= decimals
    ensures Units(WholePart(n, decimals), FractionPart(n, decimals), decimals) == n
  {
    FormatIs(n, decimals);
    NumeralRoundTrip(QuoRem(n, Pow10(decimals)).0);
  }

  /** And it is the only canonical way to write the number. */
  lemma CanonicalIsFormat(s: string, whole: Digits, frac: Digits, decimals: nat)
    requires Canonical(s, whole, frac) && |frac| <= decimals
    ensures s == FormatUnits(Some(Units(whole, frac, decimals)), decimals)
  {
    var n := Units(whole, frac, decimals);
    CanonicalParts(whole, frac, decimals);
    FormatIs(n, decimals);
  }

  lemma CanonicalParts(whole: Digits, frac: Digits, decimals: nat)
    requires whole != "" && (whole[0] == '0' ==> whole == "0") && |frac| <= decimals
    requires frac != "" ==> frac[|frac| - 1] != '0'
    ensures var n := Units(whole, frac, decimals);
      WholePart(n, decimals) == whole && FractionPart(n, decimals) == frac
  {
    var padded := frac + Zeros(decimals - |frac|);
    UnitsOfDigits(whole, frac, decimals);
    NumeralUnique(whole);
    CutIsInverse(frac, decimals);
    QuoRemUnique(NatOf(whole), NatOf(padded), Pow10(decimals));
  }

  lemma QuoRemUnique(q: nat, r: nat, p: nat)
    requires r < p
    ensures QuoRem(q * p + r, p) == (q, r)
  {
    DivMod(q, r, p);
  }

  /** Cutting undoes padding. */
  lemma CutIsInverse(frac: Digits, decimals: nat)
    requires |frac| <= decimals && (frac != "" ==> frac[|frac| - 1] != '0')
    ensures var value := NatOf(frac) * Pow10(decimals - |frac|);
      value < Pow10(decimals) && CutFraction(value, decimals) == frac
  {
    var padded := frac + Zeros(decimals - |frac|);
    UnitsOfDigits("", frac, decimals);
    TrimRightOfPadded(frac, decimals - |frac|);
    if NatOf(padded) == 0 {
      ZeroOnlyZeros(padded);
      assert "" + Zeros(decimals) == Zeros(decimals);
      TrimRightOfPadded("", decimals);
    } else {
      assert decimals > 0 by { assert Pow10(0) == 1; }
      PaddedReads(NatOf(padded), decimals);
      SameLengthUnique(Padded(NatOf(padded), decimals), padded);
    }
  }

  lemma DivMod(q: nat, r: nat, p: nat)
    requires r < p
    ensures (q * p + r) / p == q && (q * p + r) % p == r
  {
    var n := q * p + r;
    assert n == n / p * p + n % p;
    if n / p < q {
      MultiplesApart(n / p, q, p);
    }
    if n / p > q {
      MultiplesApart(q, n / p, p);
    }
  }

  lemma MultiplesApart(a: nat, b: nat, p: nat)
    requires a < b
    ensures a * p + p <= b * p
  {
    assert (a + 1) * p <= b * p;
  }

  // ---- Round trips ----------------------------------------------------------------------------------------

  /** Printing and parsing gives the number back. */
  lemma ParseOfFormat(n: nat, decimals: int)
    requires n <= MAX_UINT256 && 0 <= decimals <= MAX_DECIMALS
    ensures ParseUnits(FormatUnits(Some(n), decimals), decimals) == Ok(n)
  {
    FormatIsCanonical(n, decimals);
    ParseWritten(FormatUnits(Some(n), decimals), decimals, WholePart(n, decimals), FractionPart(n, decimals));
  }

  /** Parsing and printing gives the one canonical string that parses to the same number. */
  lemma FormatOfParse(s: string, decimals: int, canonical: string, whole: Digits, frac: Digits)
    requires ParseUnits(s, decimals).Ok?
    requires Canonical(canonical, whole, frac)
    ensures ParseUnits(canonical, decimals) == ParseUnits(s, decimals)
      <==> canonical == FormatUnits(Some(ParseUnits(s, decimals).value), decimals)
  {
    var n := ParseUnits(s, decimals).value;
    ParseOfFormat(n, decimals);
    ParseWritten(canonical, decimals, whole, frac);
    if ParseUnits(canonical, decimals) == Ok(n) {
      CanonicalIsFormat(canonical, whole, frac, decimals);
    }
  }

  lemma WithFractionIsFormat(n: nat, decimals: nat)
    requires 0 < decimals
    ensures WithFraction(n, decimals) == FormatUnits(Some(n), decimals)
  {
    if n == 0 {
      DivMod(0, 0, Pow10(decimals));
    }
  }

  lemma FormatETHHasFraction(wei: nat)
    ensures FormatETH(wei) == WithFraction(wei, 18)
  {
  }

  /** The two printers agree. */
  lemma FormatETHIsFormatUnits(wei: nat)
    ensures FormatETH(wei) == FormatUnits(Some(wei), 18)
  {
    FormatETHHasFraction(wei);
    WithFractionIsFormat(wei, 18);
  }
}
