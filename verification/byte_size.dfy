/**
 * `_format_bytes`: a byte count rendered with one decimal in the first unit of
 * B, KB, MB, GB whose scaled value is below 1024, or in TB. Arithmetic is exact
 * here; the source's doubles hold these values exactly for sizes below 2^53.
 */
module ByteSize {
  import opened Optional
  import opened Text

  const Units: seq<string> := ["B", "KB", "MB", "GB", "TB"]

  function Pow1024(k: nat): (p: nat)
    ensures p >= 1
  {
    if k == 0 then 1 else 1024 * Pow1024(k - 1)
  }

  /**
   * The index of the unit a size is shown in: the first `k` below 4 with
   * `size < 1024^(k+1)`, or 4 when there is none.
   */
  function Scale(size: int): (k: nat)
    ensures k <= 4
    ensures k < 4 ==> size < Pow1024(k + 1)
    ensures k > 0 ==> size >= Pow1024(k)
  {
    if size < 1024 then 0
    else if size < 1024 * 1024 then 1
    else if size < 1024 * 1024 * 1024 then 2
    else if size < 1024 * 1024 * 1024 * 1024 then 3
    else 4
  }

  /** Python's round-half-to-even of a real to an integer, as `format(x, '.1f')` does on `10 * x`. */
  function RoundHalfEven(x: real): (n: int)
    ensures x - 0.5 <= n as real <= x + 0.5
    ensures n as real == x - 0.5 || n as real == x + 0.5 ==> n % 2 == 0
  {
    var f := x.Floor;
    var frac := x - f as real;
    if frac < 0.5 then f
    else if frac > 0.5 then f + 1
    else if f % 2 == 0 then f else f + 1
  }

  /**
   * A count of tenths written with exactly one decimal, as `.1f` writes it:
   * without its point the text is the decimal numeral of `t` (with at least
   * two digits).
   */
  function Tenths(t: int): (r: string)
    ensures |r| >= 3 && r[|r| - 2] == '.' && IsDigit(r[|r| - 1])
    ensures IsNumeral(WithoutPoint(r)) && ParseInt(WithoutPoint(r)) == t
    ensures (r[0] == '-') <==> t < 0
    ensures var w := if t < 0 then r[1..] else r; |w| >= 3 && (w[0] == '0' ==> w[1] == '.')
  {
    var a := if t < 0 then -t else t;
    var sign := if t < 0 then "-" else "";
    var whole := NatToString(a / 10);
    var d := DigitChar(a % 10);
    ReadsBack(t, sign, whole, d);
    NoLeadingZero(a / 10);
    SignThenWhole(t < 0, sign, whole, d);
    sign + whole + "." + [d]
  }

  /** The text `.1f` builds from the sign, the whole part and the last digit reads back as the tenths. */
  lemma ReadsBack(t: int, sign: string, whole: string, d: char)
    requires sign == (if t < 0 then "-" else "")
    requires whole == NatToString((if t < 0 then -t else t) / 10)
    requires d == DigitChar((if t < 0 then -t else t) % 10)
    ensures var r := sign + whole + "." + [d];
      |r| >= 3 && IsNumeral(WithoutPoint(r)) && ParseInt(WithoutPoint(r)) == t
  {
    var a := if t < 0 then -t else t;
    DigitsSnoc(whole, d);
    PointDropped(sign, whole, d);
    SignedNumeral(sign, whole + [d]);
    ParseNatToString(a / 10);
  }

  /**
   * With a sign exactly for negative values and a whole part that is `0` or
   * starts with a non-zero digit, the text has the sign `.1f` gives it and no
   * leading zero.
   */
  lemma SignThenWhole(negative: bool, sign: string, whole: string, d: char)
    requires sign == if negative then "-" else ""
    requires |whole| >= 1 && IsDigit(whole[0]) && (whole[0] == '0' ==> |whole| == 1)
    ensures var r := sign + whole + "." + [d];
      && (r[0] == '-' <==> negative)
      && var w := if negative then r[1..] else r; |w| >= 3 && (w[0] == '0' ==> w[1] == '.')
  {
    var r := sign + whole + "." + [d];
    var w := if negative then r[1..] else r;
    assert w == whole + "." + [d];
    assert r[0] == if negative then '-' else whole[0];
  }

  /** An optional `-` followed by decimal digits. */
  predicate IsNumeral(s: string) {
    |s| >= 1 && forall i :: 0 <= i < |s| ==> IsDigit(s[i]) || (i == 0 && s[i] == '-')
  }

  /** The text with its second-to-last character (the decimal point) removed. */
  function WithoutPoint(r: string): string
    requires |r| >= 2
  {
    r[..|r| - 2] + [r[|r| - 1]]
  }

  /** Appending a digit multiplies the value by ten and adds the digit. */
  lemma DigitsSnoc(whole: string, d: char)
    requires forall i :: 0 <= i < |whole| ==> IsDigit(whole[i])
    requires IsDigit(d)
    ensures forall i :: 0 <= i < |whole + [d]| ==> IsDigit((whole + [d])[i])
    ensures ParseNat(whole + [d]) == ParseNat(whole) * 10 + (d as int - '0' as int)
  {
    assert (whole + [d])[..|whole|] == whole;
  }

  lemma PointDropped(sign: string, whole: string, d: char)
    ensures WithoutPoint(sign + whole + "." + [d]) == sign + (whole + [d])
  {
    var r := sign + whole + "." + [d];
    assert r[..|r| - 2] == sign + whole;
  }

  /** A sign followed by digits is a numeral read back with that sign. */
  lemma SignedNumeral(sign: string, digits: string)
    requires sign == "" || sign == "-"
    requires |digits| >= 1 && forall i :: 0 <= i < |digits| ==> IsDigit(digits[i])
    ensures IsNumeral(sign + digits)
    ensures ParseInt(sign + digits) == if sign == "-" then -ParseNat(digits) else ParseNat(digits)
  {
    var w := sign + digits;
    if sign == "-" {
      assert w[1..] == digits;
      assert forall i :: 1 <= i < |w| ==> w[i] == digits[i - 1];
    } else {
      assert w == digits;
    }
  }

  /** `f"{value:.1f} {unit}"`. */
  function Render(value: real, unit: string): string {
    Tenths(RoundHalfEven(10.0 * value)) + " " + unit
  }

  /** The reference result: `None` for a missing or zero size, else the size in its unit. */
  function HumanSize(size: Option<int>): Option<string> {
    match size
    case None => None
    case Some(n) =>
      if n == 0 then None
      else
        var k := Scale(n);
        Some(Render(n as real / Pow1024(k) as real, Units[k]))
  }

  /** `_format_bytes`: divides the size by 1024 until it is below 1024 or the units run out. */
  method FormatBytes(size: Option<int>) returns (r: Option<string>)
    ensures r == HumanSize(size)
  {
    if size.None? || size.value == 0 {
      return None;
    }
    var n := size.value;
    var s: real := n as real;
    var k := 0;
    while k < 4
      invariant 0 <= k <= 4
      invariant s == n as real / Pow1024(k) as real
      invariant k > 0 ==> n >= Pow1024(k)
    {
      if s < 1024.0 {
        BelowNextPower(n, k, s);
        ScaleIsFirstFit(n, k);
        return Some(Render(s, Units[k]));
      }
      AtLeastNextPower(n, k, s);
      s := s / 1024.0;
      k := k + 1;
    }
    ScaleIsFirstFit(n, 4);
    r := Some(Render(s, Units[4]));
  }

  lemma BelowNextPower(n: int, k: nat, s: real)
    requires s == n as real / Pow1024(k) as real && s < 1024.0
    ensures n < Pow1024(k + 1)
  {
    var p := Pow1024(k) as real;
    assert n as real == s * p;
    MulBelow(s, 1024.0, p);
    assert Pow1024(k + 1) as real == 1024.0 * p;
  }

  lemma MulBelow(a: real, b: real, p: real)
    requires a < b && p > 0.0
    ensures a * p < b * p
  {
  }

  lemma AtLeastNextPower(n: int, k: nat, s: real)
    requires s == n as real / Pow1024(k) as real && s >= 1024.0
    ensures n >= Pow1024(k + 1)
    ensures s / 1024.0 == n as real / Pow1024(k + 1) as real
  {
    var p := Pow1024(k) as real;
    assert n as real == s * p;
    assert s * p >= 1024.0 * p;
  }

  /** A unit index that satisfies the first-fit conditions is the one `Scale` picks. */
  lemma ScaleIsFirstFit(n: int, k: nat)
    requires k <= 4
    requires k < 4 ==> n < Pow1024(k + 1)
    requires k > 0 ==> n >= Pow1024(k)
    ensures Scale(n) == k
  {
    var j := Scale(n);
    if j < k {
      PowMonotone(j + 1, k);
    } else if j > k {
      PowMonotone(k + 1, j);
    }
  }

  lemma {:induction false} PowMonotone(i: nat, j: nat)
    requires i <= j
    ensures Pow1024(i) <= Pow1024(j)
    decreases j
  {
    if i < j {
      PowMonotone(i, j - 1);
    }
  }

  /**
   * Between the smallest and the largest unit the value shown lies in
   * [1, 1024): the unit is the largest one that keeps the value at least 1.
   */
  lemma {:induction false} ScaledValueRange(n: int)
    requires n != 0
    ensures var k := Scale(n); 0 < k < 4 ==> 1.0 <= n as real / Pow1024(k) as real < 1024.0
    ensures Scale(n) == 4 ==> n as real / Pow1024(4) as real >= 1.0
  {
    var k := Scale(n);
    var p := Pow1024(k) as real;
    if k > 0 {
      var v := n as real / p;
      assert v * p == n as real;
      if k < 4 {
        assert (Pow1024(k + 1) as real) == 1024.0 * p;
      }
    }
  }

  /** 1536 bytes are shown as `1.5 KB`. */
  lemma FormatBytesExample()
    ensures HumanSize(Some(1536)) == Some("1.5 KB")
  {
    assert Scale(1536) == 1;
    assert Pow1024(1) == 1024;
    assert 1536 as real / 1024 as real == 1.5;
    assert 10.0 * 1.5 == 15.0;
    assert RoundHalfEven(15.0) == 15;
    assert NatToString(1) == "1" && DigitChar(5) == '5';
    assert Tenths(15) == "1.5";
    assert Render(1.5, "KB") == "1.5 KB";
    assert HumanSize(Some(1536)) == Some(Render(1.5, Units[1]));
  }
}
