/**
 The keeper's minimum claim: a decimal text in whole units, scaled to wire units
 with the fraction rounded up and overflow reported as `None`.
 */
module Scale {
  import opened LogAttribution
  import opened RecordText
  import opened Words

  // ----- reading the text -----

  /** The integer and fraction digits of a decimal text, either of which may be missing. */
  function ParseWhole(s: string): Option<(string, string)> {
    var t := Trim(s);
    var (w, f) := match SplitOnce(t, '.')
      case None => (t, [])
      case Some(parts) => parts;
    if (w == [] && f == []) || !AllDigits(w) || !AllDigits(f) then None else Some((w, f))
  }

  lemma {:induction false} SplitOnceJoins(s: string, c: char)
    ensures SplitOnce(s, c).None? <==> c !in s
    ensures SplitOnce(s, c).Some? ==>
              var (a, b) := SplitOnce(s, c).value;
              s == a + [c] + b && c !in a
  {
    if s != [] && s[0] != c {
      SplitOnceJoins(s[1..], c);
      assert s == [s[0]] + s[1..];
    } else if s != [] {
      assert s == [] + [c] + s[1..];
    }
  }

  /** What is accepted, and as which parts. */
  lemma ParseWholeIff(s: string, w: string, f: string)
    ensures ParseWhole(s) == Some((w, f)) <==>
              && AllDigits(w) && AllDigits(f) && (w != [] || f != [])
              && (Trim(s) == w + ['.'] + f || (Trim(s) == w && f == []))
  {
    var t := Trim(s);
    SplitOnceJoins(t, '.');
    if AllDigits(w) {
      assert '.' !in w;
      if t == w + ['.'] + f {
        SplitAtFirst(w, '.', f);
      }
    }
  }

  // ----- scaling -----

  function Checked(n: nat): Option<u128> {
    if n < U128_LIMIT then Some(n) else None
  }

  /** A digit text as a `u128`; the empty text is zero. */
  function ParseU128(s: string): Option<u128>
    requires AllDigits(s)
  {
    if s == [] then Some(0) else Checked(DecimalValue(s))
  }

  function CheckedMul(a: u128, b: u128): Option<u128> {
    Checked((a as nat) * (b as nat))
  }

  /** The checked sum of three terms, the first of them checked already or overflowed. */
  function CheckedSum(product: Option<u128>, f: u128, up: u128): Option<u128> {
    match product
    case None => None
    case Some(p) =>
      match Checked((p as nat) + (f as nat))
      case None => None
      case Some(sum) => Checked((sum as nat) + (up as nat))
  }

  /** The fraction digits the scale can hold, and the finer ones. */
  function Kept(frac: string, decimals: nat): (k: string)
    requires AllDigits(frac)
    ensures AllDigits(k) && |k| <= decimals
  {
    if |frac| > decimals then frac[..decimals] else frac
  }

  function Rest(frac: string, decimals: nat): (r: string)
    requires AllDigits(frac)
    ensures AllDigits(r)
  {
    if |frac| > decimals then frac[decimals..] else []
  }

  predicate HasNonZero(s: string) {
    exists i :: 0 <= i < |s| && s[i] != '0'
  }

  function Scale(whole: string, frac: string, decimals: byte): Option<u128>
    requires AllDigits(whole) && AllDigits(frac)
  {
    var kept, rest := Kept(frac, decimals), Rest(frac, decimals);
    match (Checked(Pow10(decimals)), ParseU128(whole), ParseU128(kept), Checked(Pow10(decimals - |kept|)))
    case (Some(unit), Some(w), Some(k), Some(pad)) =>
      (match CheckedMul(k, pad)
       case None => None
       case Some(f) => CheckedSum(CheckedMul(w, unit), f, if HasNonZero(rest) then 1 else 0))
    case _ => None
  }

  /** `c` is the least integer not below `num / den`. */
  predicate IsCeiling(c: int, num: int, den: nat) {
    (c - 1) * den < num <= c * den
  }

  // ----- digits -----

  lemma {:induction false} DecimalConcat(a: string, b: string)
    requires AllDigits(a) && AllDigits(b)
    ensures AllDigits(a + b) && DecimalValue(a + b) == DecimalValue(a) * Pow10(|b|) + DecimalValue(b)
  {
    if b == [] {
      assert a + b == a;
    } else {
      var b' := b[..|b| - 1];
      DecimalConcat(a, b');
      assert (a + b)[..|a + b| - 1] == a + b';
      ShiftDigit(DecimalValue(a), Pow10(|b'|), DecimalValue(b'), b[|b| - 1] as int - 48);
    }
  }

  lemma ShiftDigit(x: nat, p: nat, y: nat, d: int)
    ensures (x * p + y) * 10 + d == x * (10 * p) + (y * 10 + d)
  {
    assert x * (10 * p) == 10 * (x * p);
  }

  lemma {:induction false} DecimalBound(s: string)
    requires AllDigits(s)
    ensures DecimalValue(s) < Pow10(|s|)
  {
    if s != [] {
      DecimalBound(s[..|s| - 1]);
    }
  }

  lemma {:induction false} NonZeroDigit(s: string)
    requires AllDigits(s)
    ensures DecimalValue(s) > 0 <==> HasNonZero(s)
  {
    if s != [] {
      var n := |s| - 1;
      NonZeroDigit(s[..n]);
      if HasNonZero(s) {
        var i :| 0 <= i < |s| && s[i] != '0';
        assert i == n || s[..n][i] != '0';
      }
    }
  }

  /** A fraction of no more digits than the scale: the product is exact. */
  lemma ExactCeiling(w: nat, f: nat, n: nat, extra: nat)
    ensures IsCeiling(w * Pow10(n + extra) + f * Pow10(extra), (w * Pow10(n) + f) * Pow10(n + extra), Pow10(n))
  {
    Pow10Sum(n, extra);
    ExactProduct(w, f, Pow10(n), Pow10(extra));
  }

  lemma ExactProduct(w: nat, f: nat, p: nat, q: nat)
    requires p > 0
    ensures IsCeiling(w * (p * q) + f * q, (w * p + f) * (p * q), p)
  {
    var c := w * (p * q) + f * q;
    assert c == (w * p + f) * q;
    assert (w * p + f) * (p * q) == c * p;
    assert (c - 1) * p == c * p - p;
  }

  /** A finer fraction, of `k` kept digits and a rest: round up exactly when the rest is not zero. */
  lemma RoundedCeiling(w: nat, k: nat, r: nat, d: nat, m: nat)
    requires r < Pow10(m)
    ensures IsCeiling(w * Pow10(d) + k + (if r > 0 then 1 else 0),
                      (w * Pow10(d + m) + k * Pow10(m) + r) * Pow10(d), Pow10(d + m))
  {
    Pow10Sum(d, m);
    RoundedProduct(w, k, r, Pow10(d), Pow10(m));
  }

  lemma RoundedProduct(w: nat, k: nat, r: nat, p: nat, q: nat)
    requires r < q && p > 0
    ensures IsCeiling(w * p + k + (if r > 0 then 1 else 0), (w * (p * q) + k * q + r) * p, p * q)
  {
    FactorOut(w, k, p, q);
    SpreadOver(w * p + k, q, r, p);
    PartOfOne(r, q, p);
    CeilingOfSum(w * p + k, p * q, r * p);
  }

  lemma FactorOut(w: nat, k: nat, p: nat, q: nat)
    ensures w * (p * q) + k * q == (w * p + k) * q
  {
  }

  lemma SpreadOver(a: nat, q: nat, r: nat, p: nat)
    ensures (a * q + r) * p == a * (p * q) + r * p
  {
  }

  lemma PartOfOne(r: nat, q: nat, p: nat)
    requires r < q && p > 0
    ensures 0 <= r * p < p * q && (r > 0 <==> r * p > 0)
  {
    assert (q - r) * p > 0;
  }

  lemma CeilingOfSum(a: nat, m: nat, s: nat)
    requires s < m
    ensures IsCeiling(a + (if s > 0 then 1 else 0), a * m + s, m)
  {
    assert (a + 1) * m == a * m + m && (a - 1) * m == a * m - m;
  }

  // ----- the theorem -----

  /** The scaled minimum, before the overflow checks. */
  function Ceiling(whole: string, frac: string, decimals: byte): nat
    requires AllDigits(whole) && AllDigits(frac)
  {
    var kept := Kept(frac, decimals);
    DecimalValue(whole) * Pow10(decimals) + DecimalValue(kept) * Pow10(decimals - |kept|)
    + if HasNonZero(Rest(frac, decimals)) then 1 else 0
  }

  /**
   `Ceiling` is the least integer not below value * 10^decimals, where the value
   of the text is the integer of all its digits over 10^|frac|.
   */
  lemma CeilingIsCeiling(whole: string, frac: string, decimals: byte)
    requires AllDigits(whole) && AllDigits(frac)
    ensures AllDigits(whole + frac)
    ensures IsCeiling(Ceiling(whole, frac, decimals), DecimalValue(whole + frac) * Pow10(decimals), Pow10(|frac|))
  {
    if |frac| > decimals {
      FineFraction(whole, frac, decimals);
    } else {
      CoarseFraction(whole, frac, decimals);
    }
  }

  lemma FineFraction(whole: string, frac: string, decimals: nat)
    requires AllDigits(whole) && AllDigits(frac) && |frac| > decimals && decimals < 256
    ensures AllDigits(whole + frac)
    ensures IsCeiling(Ceiling(whole, frac, decimals), DecimalValue(whole + frac) * Pow10(decimals), Pow10(|frac|))
  {
    var kept, rest := frac[..decimals], frac[decimals..];
    var w, k, r := DecimalValue(whole), DecimalValue(kept), DecimalValue(rest);
    DecimalConcat(whole, frac);
    assert frac == kept + rest;
    DecimalConcat(kept, rest);
    DecimalBound(rest);
    NonZeroDigit(rest);
    RoundedCeiling(w, k, r, decimals, |rest|);
    var zero := decimals - |kept|;
    assert zero == 0 && k * Pow10(zero) == k;
    assert Ceiling(whole, frac, decimals) == w * Pow10(decimals) + k + if r > 0 then 1 else 0;
  }

  lemma CoarseFraction(whole: string, frac: string, decimals: nat)
    requires AllDigits(whole) && AllDigits(frac) && |frac| <= decimals && decimals < 256
    ensures AllDigits(whole + frac)
    ensures IsCeiling(Ceiling(whole, frac, decimals), DecimalValue(whole + frac) * Pow10(decimals), Pow10(|frac|))
  {
    var w, f, n, extra := DecimalValue(whole), DecimalValue(frac), |frac|, decimals - |frac|;
    DecimalConcat(whole, frac);
    NothingCut(whole, frac, decimals, extra);
    CoarseNumbers(DecimalValue(whole + frac), w, f, n, extra, Pow10(decimals), Ceiling(whole, frac, decimals));
  }

  lemma CoarseNumbers(total: nat, w: nat, f: nat, n: nat, extra: nat, scale: nat, c: nat)
    requires total == w * Pow10(n) + f && scale == Pow10(n + extra) && c == w * scale + f * Pow10(extra)
    ensures IsCeiling(c, total * scale, Pow10(n))
  {
    ExactCeiling(w, f, n, extra);
  }

  lemma NothingCut(whole: string, frac: string, decimals: nat, extra: nat)
    requires AllDigits(whole) && AllDigits(frac) && |frac| + extra == decimals < 256
    ensures Ceiling(whole, frac, decimals) == DecimalValue(whole) * Pow10(decimals) + DecimalValue(frac) * Pow10(extra)
  {
    assert !HasNonZero([]);
    assert Kept(frac, decimals) == frac && Rest(frac, decimals) == [];
  }

  lemma AtLeastItself(a: nat, p: nat)
    requires p >= 1
    ensures a * p >= a
  {
  }

  lemma {:induction false} Pow10Monotone(a: nat, b: nat)
    requires a <= b
    ensures Pow10(a) <= Pow10(b)
  {
    if a < b {
      Pow10Monotone(a, b - 1);
    }
  }

  /** The intermediate checks refuse nothing that the scale and the result do not. */
  lemma ScaleIsCeiling(whole: string, frac: string, decimals: byte)
    requires AllDigits(whole) && AllDigits(frac)
    ensures Scale(whole, frac, decimals)
            == if Pow10(decimals) < U128_LIMIT && Ceiling(whole, frac, decimals) < U128_LIMIT
               then Some(Ceiling(whole, frac, decimals)) else None
  {
    if Pow10(decimals) < U128_LIMIT {
      var product, f, up := ScaleOfParts(whole, frac, decimals);
      Decided(Scale(whole, frac, decimals), Ceiling(whole, frac, decimals), DecimalValue(whole), product, f, up);
    }
  }

  lemma Decided(r: Option<u128>, c: nat, w: nat, product: nat, f: u128, up: u128)
    requires c == product + f as nat + up as nat && (w >= U128_LIMIT ==> product >= U128_LIMIT)
    requires r == if w >= U128_LIMIT then None else CheckedSum(Checked(product), f, up)
    ensures r == if c < U128_LIMIT then Some(c) else None
  {
    SumFits(product, f, up);
  }

  lemma SumFits(product: nat, f: u128, up: u128)
    ensures CheckedSum(Checked(product), f, up)
            == if product + f as nat + up as nat < U128_LIMIT then Some(product + f as nat + up as nat) else None
  {
  }

  lemma ReadsIfFits(s: string)
    requires AllDigits(s)
    ensures ParseU128(s) == Checked(DecimalValue(s))
  {
  }

  lemma ProductFits(a: u128, b: u128)
    requires a as nat * b as nat < U128_LIMIT
    ensures CheckedMul(a, b) == Some(a * b)
  {
  }

  /** When the scale fits, only the whole part and the final sum can fail. */
  lemma ScaleOfParts(whole: string, frac: string, decimals: byte) returns (product: nat, f: u128, up: u128)
    requires AllDigits(whole) && AllDigits(frac) && Pow10(decimals) < U128_LIMIT
    ensures Ceiling(whole, frac, decimals) == product + f as nat + up as nat
    ensures DecimalValue(whole) >= U128_LIMIT ==> product >= U128_LIMIT
    ensures Scale(whole, frac, decimals)
            == if DecimalValue(whole) >= U128_LIMIT then None else CheckedSum(Checked(product), f, up)
  {
    var kept := Kept(frac, decimals);
    FractionFits(kept, decimals);
    ReadsIfFits(whole);
    var w, k := DecimalValue(whole), DecimalValue(kept);
    var scale, pad := Pow10(decimals), Pow10(decimals - |kept|);
    WholeFits(w, scale);
    ProductFits(k, pad);
    product, f := w * scale, k * pad;
    up := if HasNonZero(Rest(frac, decimals)) then 1 else 0;
    CeilingSteps(whole, frac, decimals, product, f, up);
    ScaleSteps(whole, frac, decimals, scale, k, pad, f, up);
    if w < U128_LIMIT {
      ProductIsChecked(w, scale, product);
    }
  }

  lemma CeilingSteps(whole: string, frac: string, decimals: byte, product: nat, f: nat, up: nat)
    requires AllDigits(whole) && AllDigits(frac) && product == DecimalValue(whole) * Pow10(decimals)
    requires f == DecimalValue(Kept(frac, decimals)) * Pow10(decimals - |Kept(frac, decimals)|)
    requires up == if HasNonZero(Rest(frac, decimals)) then 1 else 0
    ensures Ceiling(whole, frac, decimals) == product + f + up
  {
  }

  /** Once the scale and the fraction fit. */
  lemma ScaleSteps(whole: string, frac: string, decimals: byte, scale: u128, k: u128, pad: u128, f: u128, up: u128)
    requires AllDigits(whole) && AllDigits(frac)
    requires Checked(Pow10(decimals)) == Some(scale) && ParseU128(Kept(frac, decimals)) == Some(k)
    requires Checked(Pow10(decimals - |Kept(frac, decimals)|)) == Some(pad) && CheckedMul(k, pad) == Some(f)
    requires up == if HasNonZero(Rest(frac, decimals)) then 1 else 0
    ensures Scale(whole, frac, decimals)
            == match ParseU128(whole) case None => None case Some(w) => CheckedSum(CheckedMul(w, scale), f, up)
  {
  }

  lemma ProductIsChecked(a: u128, b: u128, product: nat)
    requires product == (a as nat) * (b as nat)
    ensures CheckedMul(a, b) == Checked(product)
  {
  }

  /** The kept digits, padded to the scale, always fit when the scale does. */
  lemma FractionFits(kept: string, decimals: nat)
    requires AllDigits(kept) && |kept| <= decimals && Pow10(decimals) < U128_LIMIT
    ensures ParseU128(kept) == Some(DecimalValue(kept)) && Pow10(decimals - |kept|) < U128_LIMIT
    ensures DecimalValue(kept) * Pow10(decimals - |kept|) < U128_LIMIT
  {
    DecimalBound(kept);
    Pow10Sum(|kept|, decimals - |kept|);
    Pow10Monotone(decimals - |kept|, decimals);
    Pow10Monotone(|kept|, decimals);
    KeptFits(DecimalValue(kept), Pow10(|kept|), Pow10(decimals - |kept|));
  }

  /** A whole part too large to read would overflow the product anyway. */
  lemma WholeFits(w: nat, unit: nat)
    requires unit >= 1
    ensures w >= U128_LIMIT ==> w * unit >= U128_LIMIT
  {
    AtLeastItself(w, unit);
  }

  lemma KeptFits(k: nat, p: nat, pad: nat)
    requires k < p && pad >= 1
    ensures k * pad < p * pad
  {
  }

  /**
   For every accepted text and every scale, the result is the ceiling of the
   value times 10^decimals, and is absent exactly when 10^decimals or that
   ceiling does not fit a `u128`.
   */
  lemma ScaledMinimumIff(text: string, decimals: byte, c: nat)
    requires ParseWhole(text).Some?
    requires var (whole, frac) := ParseWhole(text).value;
             AllDigits(whole + frac) &&
             IsCeiling(c, DecimalValue(whole + frac) * Pow10(decimals), Pow10(|frac|))
    ensures var (whole, frac) := ParseWhole(text).value;
            Scale(whole, frac, decimals) == if Pow10(decimals) < U128_LIMIT && c < U128_LIMIT then Some(c) else None
  {
    var (whole, frac) := ParseWhole(text).value;
    CeilingIsCeiling(whole, frac, decimals);
    CeilingIsUnique(c, Ceiling(whole, frac, decimals), DecimalValue(whole + frac) * Pow10(decimals), Pow10(|frac|));
    ScaleIsCeiling(whole, frac, decimals);
  }

  lemma CeilingIsUnique(a: nat, b: nat, num: int, den: nat)
    requires IsCeiling(a, num, den) && IsCeiling(b, num, den)
    ensures a == b
  {
    KeepsOrder(a, b - 1, den);
    KeepsOrder(b, a - 1, den);
  }

  lemma KeepsOrder(a: int, b: int, den: nat)
    ensures a <= b ==> a * den <= b * den
  {
  }
}
