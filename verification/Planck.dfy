/**
  `fmtPlanck`: an amount in planck printed as a decimal number with a given number of
  decimals and no trailing zeros.
 */
module Planck {
  import opened Numbers

  predicate IsDigit(c: char) {
    '0' <= c <= '9'
  }

  predicate AllDigits(s: string) {
    forall i :: 0 <= i < |s| ==> IsDigit(s[i])
  }

  function DigitValue(c: char): nat
    requires IsDigit(c)
  {
    c as int - '0' as int
  }

  function DigitOf(d: nat): (c: char)
    requires d < 10
    ensures IsDigit(c) && DigitValue(c) == d
  {
    ('0' as int + d) as char
  }

  function Pow10(n: nat): nat {
    if n == 0 then 1 else 10 * Pow10(n - 1)
  }

  // ---- The printer ----

  function Digits(n: nat): (s: string)
    ensures |s| >= 1 && AllDigits(s)
    ensures s[0] == '0' <==> n == 0
    ensures n < 10 ==> |s| == 1
  {
    if n < 10 then [DigitOf(n)] else Digits(n / 10) + [DigitOf(n % 10)]
  }

  function Zeros(n: nat): (s: string)
    ensures |s| == n && forall i :: 0 <= i < n ==> s[i] == '0'
  {
    seq(n, i => '0')
  }

  function PadStart(s: string, width: nat): (r: string)
    ensures |r| == Max(|s|, width)
  {
    if |s| < width then Zeros(width - |s|) + s else s
  }

  /** Strips trailing zeros. */
  function TrimEnd(s: string): (r: string)
    ensures |r| <= |s| && r == s[..|r|]
    ensures r != [] ==> r[|r| - 1] != '0'
    ensures forall i :: |r| <= i < |s| ==> s[i] == '0'
  {
    if s != [] && s[|s| - 1] == '0' then TrimEnd(s[..|s| - 1]) else s
  }

  /** The digits before and after the point. */
  function Parts(p: nat, decimals: nat): (string, string) {
    var s := PadStart(Digits(p), decimals + 1);
    (s[..|s| - decimals], TrimEnd(s[|s| - decimals..]))
  }

  function Join(whole: string, fraction: string): string {
    if fraction != [] then whole + "." + fraction else whole
  }

  function Format(p: nat, decimals: nat): string {
    Join(Parts(p, decimals).0, Parts(p, decimals).1)
  }

  // ---- Reading back ----

  function Value(s: string): nat
    requires AllDigits(s)
  {
    if s == [] then 0 else 10 * Value(s[..|s| - 1]) + DigitValue(s[|s| - 1])
  }

  /** What is before and after the first dot. */
  function SplitDot(s: string): (r: (string, string))
    ensures |r.0| <= |s| && r.0 == s[..|r.0|] && '.' !in r.0
    ensures |r.0| < |s| ==> s[|r.0|] == '.' && r.1 == s[|r.0| + 1..]
    ensures |r.0| == |s| ==> r.1 == []
  {
    if s == [] then ([], [])
    else if s[0] == '.' then ([], s[1..])
    else
      var (a, b) := SplitDot(s[1..]);
      ([s[0]] + a, b)
  }

  predicate ReadableParts(whole: string, fraction: string, decimals: nat) {
    AllDigits(whole) && AllDigits(fraction) && |fraction| <= decimals
  }

  function Amount(whole: string, fraction: string, decimals: nat): nat
    requires ReadableParts(whole, fraction, decimals)
  {
    Value(whole) * Pow10(decimals) + Value(fraction) * Pow10(decimals - |fraction|)
  }

  /** Digits with at most `decimals` of them after a dot. */
  predicate Readable(s: string, decimals: nat) {
    ReadableParts(SplitDot(s).0, SplitDot(s).1, decimals)
  }

  function Parse(s: string, decimals: nat): nat
    requires Readable(s, decimals)
  {
    Amount(SplitDot(s).0, SplitDot(s).1, decimals)
  }

  predicate CanonicalParts(whole: string, fraction: string, decimals: nat) {
    && ReadableParts(whole, fraction, decimals)
    && whole != [] && (|whole| > 1 ==> whole[0] != '0')
    && (fraction != [] ==> fraction[|fraction| - 1] != '0')
  }

  /** No superfluous zero at either end, and a dot only before a fraction. */
  predicate Canonical(s: string, decimals: nat) {
    && CanonicalParts(SplitDot(s).0, SplitDot(s).1, decimals)
    && (SplitDot(s).1 == [] ==> s == SplitDot(s).0)
  }

  // ---- Lemmas on digit strings ----

  lemma {:induction false} ValueAppend(s: string, t: string)
    requires AllDigits(s) && AllDigits(t)
    ensures AllDigits(s + t)
    ensures Value(s + t) == Value(s) * Pow10(|t|) + Value(t)
  {
    if t == [] {
      assert s + t == s;
    } else {
      var u := t[..|t| - 1];
      ValueAppend(s, u);
      assert (s + t)[..|s + t| - 1] == s + u;
      Distribute(Value(s), Pow10(|u|), Value(u));
    }
  }

  lemma Distribute(a: nat, p: nat, b: nat)
    ensures 10 * (a * p + b) == a * (10 * p) + 10 * b
  {
  }

  lemma {:induction false} ValueZeros(n: nat)
    ensures Value(Zeros(n)) == 0
  {
    if n > 0 {
      assert Zeros(n)[..n - 1] == Zeros(n - 1);
      ValueZeros(n - 1);
    }
  }

  lemma {:induction false} ValueDigits(n: nat)
    ensures Value(Digits(n)) == n
  {
    if n >= 10 {
      ValueDigits(n / 10);
      assert Digits(n)[..|Digits(n)| - 1] == Digits(n / 10);
    } else {
      assert Digits(n)[..0] == [];
    }
  }

  lemma DigitsExtend(v: nat, d: nat)
    requires v > 0 && d < 10
    ensures Digits(10 * v + d) == Digits(v) + [DigitOf(d)]
  {
    assert (10 * v + d) / 10 == v && (10 * v + d) % 10 == d;
  }

  lemma PadExtend(s: string, c: char, width: nat)
    requires |s| <= width
    ensures PadStart(s + [c], width + 1) == PadStart(s, width) + [c]
  {
  }

  lemma PadDigit(c: char, width: nat)
    requires width > 0
    ensures PadStart("0", width) == Zeros(width)
    ensures PadStart([c], width + 1) == Zeros(width) + [c]
  {
  }

  lemma DigitsOfOne(c: char)
    requires IsDigit(c)
    ensures Value([c]) == DigitValue(c) && Digits(DigitValue(c)) == [c]
  {
    assert [c][..0] == [];
  }

  /** A digit string is what the padded printer makes of its value. */
  lemma {:induction false} DigitsOfValue(t: string)
    requires t != [] && AllDigits(t)
    ensures |Digits(Value(t))| <= |t|
    ensures PadStart(Digits(Value(t)), |t|) == t
    ensures t[0] != '0' ==> Digits(Value(t)) == t
    decreases |t|
  {
    var u, c := t[..|t| - 1], t[|t| - 1];
    assert t == u + [c];
    DigitsOfOne(c);
    if u == [] {
      assert t == [c];
    } else {
      DigitsOfValue(u);
      if Value(u) == 0 {
        DigitsOfOne('0');
        PadDigit(c, |u|);
      } else {
        DigitsExtend(Value(u), DigitValue(c));
        PadExtend(Digits(Value(u)), c, |u|);
      }
    }
  }

  lemma ValuePadded(p: nat, width: nat)
    ensures AllDigits(PadStart(Digits(p), width)) && Value(PadStart(Digits(p), width)) == p
  {
    ValueDigits(p);
    if |Digits(p)| < width {
      ValueZeros(width - |Digits(p)|);
      ValueAppend(Zeros(width - |Digits(p)|), Digits(p));
    }
  }

  lemma SplitJoined(whole: string, fraction: string)
    requires AllDigits(whole)
    ensures SplitDot(Join(whole, fraction)) == (whole, fraction)
  {
    var s := Join(whole, fraction);
    assert forall i :: 0 <= i < |whole| ==> s[i] == whole[i] && IsDigit(s[i]);
    assert |s| > |whole| ==> s[|whole|] == '.';
    var n := |SplitDot(s).0|;
    assert n < |s| ==> !IsDigit(s[n]);
    assert n == |whole| by {
      assert s[..n] == SplitDot(s).0;
      assert forall i :: 0 <= i < n ==> s[i] == SplitDot(s).0[i];
    }
    assert s[..n] == whole;
    if fraction != [] {
      assert s[n + 1..] == fraction;
    }
  }

  lemma TrimPadded(fraction: string, zeros: string)
    requires fraction != [] ==> fraction[|fraction| - 1] != '0'
    requires forall i :: 0 <= i < |zeros| ==> zeros[i] == '0'
    ensures TrimEnd(fraction + zeros) == fraction
  {
    var all := fraction + zeros;
    var r := TrimEnd(all);
    assert forall i :: |fraction| <= i < |all| ==> all[i] == '0';
    assert fraction != [] ==> all[|fraction| - 1] == fraction[|fraction| - 1];
    assert |r| == |fraction|;
  }

  /** An amount is the value of its digits, the fraction filled up with zeros. */
  lemma AmountIsValue(whole: string, fraction: string, decimals: nat)
    requires ReadableParts(whole, fraction, decimals)
    ensures AllDigits(whole + (fraction + Zeros(decimals - |fraction|)))
    ensures Value(whole + (fraction + Zeros(decimals - |fraction|))) == Amount(whole, fraction, decimals)
  {
    var zeros := Zeros(decimals - |fraction|);
    ValueZeros(|zeros|);
    ValueAppend(fraction, zeros);
    ValueAppend(whole, fraction + zeros);
  }

  lemma PartsCanonical(p: nat, decimals: nat)
    ensures CanonicalParts(Parts(p, decimals).0, Parts(p, decimals).1, decimals)
  {
  }

  lemma AmountOfDigits(s: string, whole: string, fraction: string, decimals: nat)
    requires ReadableParts(whole, fraction, decimals) && AllDigits(s)
    requires s == whole + (fraction + Zeros(decimals - |fraction|))
    ensures Amount(whole, fraction, decimals) == Value(s)
  {
    AmountIsValue(whole, fraction, decimals);
  }

  lemma PartsRoundTrip(p: nat, decimals: nat)
    ensures CanonicalParts(Parts(p, decimals).0, Parts(p, decimals).1, decimals)
    ensures Amount(Parts(p, decimals).0, Parts(p, decimals).1, decimals) == p
  {
    var s := PadStart(Digits(p), decimals + 1);
    PartsCanonical(p, decimals);
    ValuePadded(p, decimals + 1);
    PartsAreDigits(s, decimals);
    AmountOfDigits(s, Parts(p, decimals).0, Parts(p, decimals).1, decimals);
  }

  lemma PartsAreDigits(s: string, decimals: nat)
    requires |s| > decimals && AllDigits(s)
    ensures var whole, fraction := s[..|s| - decimals], TrimEnd(s[|s| - decimals..]);
            && ReadableParts(whole, fraction, decimals)
            && s == whole + (fraction + Zeros(decimals - |fraction|))
  {
  }

  lemma PartsOfAmount(whole: string, fraction: string, decimals: nat)
    requires CanonicalParts(whole, fraction, decimals)
    ensures Parts(Amount(whole, fraction, decimals), decimals) == (whole, fraction)
  {
    var zeros := Zeros(decimals - |fraction|);
    var t := whole + (fraction + zeros);
    AmountIsValue(whole, fraction, decimals);
    DigitsOfValue(t);
    assert t[0] == whole[0];
    assert PadStart(Digits(Value(t)), decimals + 1) == t;
    assert t[..|t| - decimals] == whole && t[|t| - decimals..] == fraction + zeros;
    TrimPadded(fraction, zeros);
  }

  lemma FormatOfParts(whole: string, fraction: string, decimals: nat)
    requires CanonicalParts(whole, fraction, decimals)
    ensures Format(Amount(whole, fraction, decimals), decimals) == Join(whole, fraction)
  {
    PartsOfAmount(whole, fraction, decimals);
  }

  // ---- The main results ----

  /** Reading the printed amount gives the amount, and what is printed is canonical. */
  lemma FormatRoundTrip(p: nat, decimals: nat)
    ensures Canonical(Format(p, decimals), decimals)
    ensures Parse(Format(p, decimals), decimals) == p
  {
    PartsRoundTrip(p, decimals);
    SplitJoined(Parts(p, decimals).0, Parts(p, decimals).1);
  }

  /** Every canonical text is what its amount prints as. */
  lemma CanonicalIsPrinted(s: string, decimals: nat)
    requires Canonical(s, decimals)
    ensures Format(Parse(s, decimals), decimals) == s
  {
    var (whole, fraction) := SplitDot(s);
    FormatOfParts(whole, fraction, decimals);
    if fraction != [] {
      assert s == whole + "." + fraction;
    }
    assert s == Join(whole, fraction);
  }

  /** For a fixed number of decimals no two amounts print alike. */
  lemma FormatInjective(p: nat, q: nat, decimals: nat)
    requires Format(p, decimals) == Format(q, decimals)
    ensures p == q
  {
    FormatRoundTrip(p, decimals);
    FormatRoundTrip(q, decimals);
  }

  /** The ten digits, on their own and as tenths. */
  lemma SingleDigits(n: nat)
    requires n < 10
    ensures Format(n, 0) == ["0123456789"[n]]
    ensures n > 0 ==> Format(n, 1) == ['0', '.', "0123456789"[n]]
  {
    assert Digits(n) == ["0123456789"[n]];
    if n > 0 {
      assert PadStart(Digits(n), 2) == ['0', "0123456789"[n]];
      assert ['0', "0123456789"[n]][..1] == ['0'] && ['0', "0123456789"[n]][1..] == ["0123456789"[n]];
      assert TrimEnd(["0123456789"[n]]) == ["0123456789"[n]];
    }
  }
}
