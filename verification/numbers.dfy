/**
 * The number conversions of the driver: `int.TryParse` (32-bit), `int.ToString()`
 * for the tick values it sends, and the speed extraction
 * `Regex.Match(s, "-?\d+(\.\d+)?")` followed by `double.Parse`, with the value kept exact.
 * The driver converts in the current culture; the model fixes one whose numbers
 * are plain ASCII digits, a leading `-` and a `.` decimal point, with no group separator.
 */
module Numbers {
  import opened Options
  import opened Text

  const Int32Min: int := -0x8000_0000
  const Int32Max: int := 0x7FFF_FFFF

  predicate IsDigit(c: char)
  {
    '0' <= c <= '9'
  }

  predicate AllDigits(s: string)
  {
    forall i | 0 <= i < |s| :: IsDigit(s[i])
  }

  function DigitValue(c: char): nat
    requires IsDigit(c)
  {
    (c as int - '0' as int) as nat
  }

  /** The value of a run of decimal digits, most significant first. */
  function DigitsValue(s: string): nat
    requires AllDigits(s)
  {
    if s == [] then 0 else DigitsValue(s[..|s| - 1]) * 10 + DigitValue(s[|s| - 1])
  }

  /** White space that `NumberStyles.Integer` allows around a number: U+0009..U+000D and U+0020. */
  const NumberWhite: set<char> := {'\t', '\n', '\U{B}', '\U{C}', '\r', ' '}

  /** `int.TryParse(s, out v)`: optional white space, an optional sign, one or more digits, within 32 bits. */
  function ParseInt32(s: string): (r: Option<int>)
    ensures r.Some? ==> Int32Min <= r.value <= Int32Max
  {
    var t := Trim(s, NumberWhite);
    if t == [] then None
    else
      var body := if t[0] == '-' || t[0] == '+' then t[1..] else t;
      if body == [] || !AllDigits(body) then None
      else
        var v: int := if t[0] == '-' then 0 - DigitsValue(body) as int else DigitsValue(body);
        if Int32Min <= v <= Int32Max then Some(v) else None
  }

  /** `int.TryParse(token, out value)` with its out-parameter. */
  method TryParseInt32(token: string) returns (ok: bool, value: int)
    ensures ok == ParseInt32(token).Some?
    ensures ok ==> value == ParseInt32(token).value
    ensures !ok ==> value == 0
  {
    var r := ParseInt32(token);
    ok := r.Some?;
    value := if ok then r.value else 0;
  }

  function DigitChar(d: nat): (c: char)
    requires d < 10
    ensures IsDigit(c) && DigitValue(c) == d
  {
    ('0' as int + d) as char
  }

  /** Decimal rendering of a natural number, without leading zeros. */
  function FormatNat(n: nat): (s: string)
    ensures s != [] && AllDigits(s)
  {
    if n < 10 then [DigitChar(n)] else FormatNat(n / 10) + [DigitChar(n % 10)]
  }

  /** `int.ToString()` in a culture that writes a plain leading `-`. */
  function FormatInt(n: int): (s: string)
    ensures s != []
  {
    if n < 0 then "-" + FormatNat(-n) else FormatNat(n)
  }

  lemma {:induction false} FormatNatValue(n: nat)
    ensures DigitsValue(FormatNat(n)) == n
  {
    if n >= 10 {
      var s := FormatNat(n);
      assert s[..|s| - 1] == FormatNat(n / 10);
      FormatNatValue(n / 10);
    }
  }

  /** Rendered ticks contain neither spaces nor anything `Replace` could match. */
  lemma FormatIntChars(n: int)
    ensures forall i :: 0 <= i < |FormatInt(n)| ==> IsDigit(FormatInt(n)[i]) || FormatInt(n)[i] == '-'
  {
  }

  /** What the driver writes as ticks, `int.TryParse` reads back. */
  lemma FormatIntRoundTrip(n: int)
    requires Int32Min <= n <= Int32Max
    ensures ParseInt32(FormatInt(n)) == Some(n)
  {
    if n < 0 {
      NegativeRoundTrip(n);
    } else {
      NonNegativeRoundTrip(n);
    }
  }

  lemma NegativeRoundTrip(n: int)
    requires Int32Min <= n < 0
    ensures ParseInt32(FormatInt(n)) == Some(n)
  {
    var s := FormatInt(n);
    assert IsDigit(s[|s| - 1]);
    TrimUntouched(s, NumberWhite);
    assert s[0] == '-' && s[1..] == FormatNat(-n);
    FormatNatValue(-n);
  }

  lemma NonNegativeRoundTrip(n: int)
    requires 0 <= n <= Int32Max
    ensures ParseInt32(FormatInt(n)) == Some(n)
  {
    var s := FormatInt(n);
    assert IsDigit(s[0]) && IsDigit(s[|s| - 1]);
    TrimUntouched(s, NumberWhite);
    FormatNatValue(n);
  }

  /** Length of the leading run of digits. */
  function DigitRun(s: string): (n: nat)
    ensures n <= |s| && AllDigits(s[..n])
    ensures n < |s| ==> !IsDigit(s[n])
  {
    if s == [] || !IsDigit(s[0]) then 0
    else
      var m := DigitRun(s[1..]);
      assert s[..1 + m] == [s[0]] + s[1..][..m];
      1 + m
  }

  /** The regular expression `-?\d+(\.\d+)?` can start matching at index `i`. */
  predicate DecimalStartsAt(s: string, i: nat)
  {
    i < |s| && (IsDigit(s[i]) || (s[i] == '-' && i + 1 < |s| && IsDigit(s[i + 1])))
  }

  function Pow10(k: nat): (p: nat)
    ensures p >= 1
  {
    if k == 0 then 1 else 10 * Pow10(k - 1)
  }

  /** Value of the greedy match that starts at `s[0]`. */
  function DecimalAt(s: string): real
    requires DecimalStartsAt(s, 0)
  {
    if s[0] == '-' then -UnsignedAt(s[1..]) else UnsignedAt(s)
  }

  /** Value of `\d+(\.\d+)?` matched greedily at the start of `body`. */
  function UnsignedAt(body: string): real
    requires body != [] && IsDigit(body[0])
  {
    var n := DigitRun(body);
    DigitsValue(body[..n]) as real + FractionAt(body[n..])
  }

  /** Value of the optional `\.\d+` at the start of `rest`, 0 when it is absent. */
  function FractionAt(rest: string): real
  {
    if |rest| >= 2 && rest[0] == '.' && IsDigit(rest[1]) then
      var m := DigitRun(rest[1..]);
      DigitsValue(rest[1..][..m]) as real / Pow10(m) as real
    else 0.0
  }

  /** The leftmost position where the regular expression can start matching. */
  predicate LeftmostDecimalStart(s: string, i: nat)
  {
    DecimalStartsAt(s, i) && forall j :: 0 <= j < i ==> !DecimalStartsAt(s, j)
  }

  /** `Regex.Match(s, "-?\d+(\.\d+)?")` read as a number: the leftmost match, or None. */
  function FirstDecimal(s: string): (r: Option<real>)
    decreases |s|
    ensures r.None? <==> forall i :: 0 <= i < |s| ==> !DecimalStartsAt(s, i)
    ensures forall i: nat :: LeftmostDecimalStart(s, i) ==> r == Some(DecimalAt(s[i..]))
  {
    if s == [] then None
    else if DecimalStartsAt(s, 0) then
      assert s[0..] == s;
      Some(DecimalAt(s))
    else
      var r := FirstDecimal(s[1..]);
      DecimalStartsShift(s);
      assert forall i :: 1 <= i <= |s| ==> s[1..][i - 1..] == s[i..];
      r
  }

  lemma DecimalStartsShift(s: string)
    requires s != []
    ensures forall j :: 0 <= j < |s| - 1 ==> (DecimalStartsAt(s, j + 1) <==> DecimalStartsAt(s[1..], j))
    ensures forall i :: 1 <= i < |s| ==> (DecimalStartsAt(s, i) <==> DecimalStartsAt(s[1..], i - 1))
  {
    forall j | 0 <= j < |s| - 1
      ensures DecimalStartsAt(s, j + 1) <==> DecimalStartsAt(s[1..], j)
    {
      assert s[1..][j] == s[j + 1];
      if j + 2 < |s| { assert s[1..][j + 1] == s[j + 2]; }
    }
  }

  /** A speed the controller reports as a whole number is read back exactly. */
  lemma FirstDecimalOfInt(n: int)
    ensures FirstDecimal(FormatInt(n)) == Some(n as real)
  {
    var s := FormatInt(n);
    var body := if n < 0 then s[1..] else s;
    assert body == FormatNat(if n < 0 then -n else n);
    assert DigitRun(body) == |body| by {
      DigitRunAll(body);
    }
    assert body[..|body|] == body;
    FormatNatValue(if n < 0 then -n else n);
  }

  lemma {:induction false} DigitRunAll(s: string)
    requires AllDigits(s)
    ensures DigitRun(s) == |s|
  {
    if s != [] {
      DigitRunAll(s[1..]);
    }
  }

  /** A digit run followed by something other than a digit: the run is all of it. */
  lemma {:induction false} DigitRunPrefix(a: string, b: string)
    requires AllDigits(a) && (b == [] || !IsDigit(b[0]))
    ensures DigitRun(a + b) == |a|
  {
    if a != [] {
      assert (a + b)[1..] == a[1..] + b;
      DigitRunPrefix(a[1..], b);
    }
  }

  /** The value of a whole part and the digits after the decimal point. */
  function PointValue(whole: nat, frac: string): real
    requires AllDigits(frac)
  {
    whole as real + DigitsValue(frac) as real / Pow10(|frac|) as real
  }

  /** A number written with a fractional part is read as its whole part plus the fraction. */
  lemma DecimalOfParts(whole: nat, frac: string)
    requires frac != [] && AllDigits(frac)
    ensures DecimalStartsAt(FormatNat(whole) + "." + frac, 0)
    ensures DecimalAt(FormatNat(whole) + "." + frac) == PointValue(whole, frac)
  {
    var w := FormatNat(whole);
    var s := w + "." + frac;
    assert s == w + ("." + frac);
    DigitRunPrefix(w, "." + frac);
    assert s[..|w|] == w && s[|w|..] == "." + frac;
    FormatNatValue(whole);
    FractionOf(frac);
  }

  /** A fractional part `.digits` is worth the digits over the matching power of ten. */
  lemma FractionOf(frac: string)
    requires frac != [] && AllDigits(frac)
    ensures FractionAt("." + frac) == DigitsValue(frac) as real / Pow10(|frac|) as real
  {
    assert ("." + frac)[1..] == frac;
    DigitRunAll(frac);
    assert frac[..|frac|] == frac;
  }
}
