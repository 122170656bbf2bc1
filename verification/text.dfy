/** The Option type used throughout the model for absent values. */
module Optional {
  datatype Option<+T> = None | Some(value: T) {
    function GetOr(default: T): T {
      match this
      case Some(v) => v
      case None => default
    }
  }
}

/**
 * The parts of Python's `str` behaviour the extraction engine relies on:
 * `strip`, the `in` operator, `split(sep)[0]` / `split(sep)[1]`, `startswith`,
 * `lower` on ASCII text and the decimal rendering of an `int`.
 */
module Text {
  import opened Optional

  /** The characters Python's `str.isspace` accepts, which `str.strip()` removes. */
  predicate IsPyWhitespace(c: char) {
    ('\t' <= c <= '\r') || ('\U{1C}' <= c <= '\U{1F}') || c == ' '
    || c == '\U{85}' || c == '\U{A0}' || c == '\U{1680}'
    || ('\U{2000}' <= c <= '\U{200A}') || c == '\U{2028}' || c == '\U{2029}'
    || c == '\U{202F}' || c == '\U{205F}' || c == '\U{3000}'
  }

  /** Removes the longest prefix of characters satisfying `drop`. */
  function TrimStart(s: string, drop: char -> bool): (r: string)
    ensures |r| <= |s| && r == s[|s| - |r|..]
    ensures r == [] || !drop(r[0])
    ensures forall i :: 0 <= i < |s| - |r| ==> drop(s[i])
  {
    if s != [] && drop(s[0]) then TrimStart(s[1..], drop) else s
  }

  /** Removes the longest suffix of characters satisfying `drop`. */
  function TrimEnd(s: string, drop: char -> bool): (r: string)
    ensures |r| <= |s| && r == s[..|r|]
    ensures r == [] || !drop(r[|r| - 1])
    ensures forall i :: |r| <= i < |s| ==> drop(s[i])
  {
    if s != [] && drop(s[|s| - 1]) then TrimEnd(s[..|s| - 1], drop) else s
  }

  /** Python's `s.strip(chars)`, where `drop` says which characters are in `chars`. */
  function Strip(s: string, drop: char -> bool): (r: string)
    ensures |r| <= |s|
    ensures r == [] || (!drop(r[0]) && !drop(r[|r| - 1]))
    ensures exists i :: StrippedAt(s, drop, r, i)
  {
    var t := TrimStart(s, drop);
    var r := TrimEnd(t, drop);
    SliceOfSlice(s, drop, t, r);
    r
  }

  /**
   * A suffix of `s` after dropped characters, cut to a prefix before dropped
   * characters, is a slice of `s` with only dropped characters around it.
   */
  lemma SliceOfSlice(s: string, drop: char -> bool, t: string, r: string)
    requires |t| <= |s| && t == s[|s| - |t|..] && forall k :: 0 <= k < |s| - |t| ==> drop(s[k])
    requires |r| <= |t| && r == t[..|r|] && forall k :: |r| <= k < |t| ==> drop(t[k])
    ensures StrippedAt(s, drop, r, |s| - |t|)
  {
    var i := |s| - |t|;
    forall k | i + |r| <= k < |s|
      ensures drop(s[k])
    {
      assert s[k] == t[k - i];
    }
  }

  /**
   * `r` is `s` with the `i` characters before it and the ones after it
   * removed, each of them a character to drop.
   */
  predicate StrippedAt(s: string, drop: char -> bool, r: string, i: int) {
    && 0 <= i <= i + |r| <= |s| && r == s[i..i + |r|]
    && (forall k :: 0 <= k < i ==> drop(s[k]))
    && (forall k :: i + |r| <= k < |s| ==> drop(s[k]))
  }

  /** `r` is `s` with the characters to drop removed from both ends, and no more. */
  ghost predicate IsStripOf(s: string, drop: char -> bool, r: string) {
    && (exists i :: StrippedAt(s, drop, r, i))
    && (r == [] || (!drop(r[0]) && !drop(r[|r| - 1])))
  }

  /**
   * The contract of `Strip` determines its result: any slice of `s` whose
   * ends are kept and around which only characters to drop were removed is
   * the stripped string.
   */
  lemma StripUnique(s: string, drop: char -> bool, x: string, i: int)
    requires StrippedAt(s, drop, x, i)
    requires x == [] || (!drop(x[0]) && !drop(x[|x| - 1]))
    ensures x == Strip(s, drop)
  {
    var r := Strip(s, drop);
    var j :| StrippedAt(s, drop, r, j);
    if x != [] && r != [] {
      assert s[i] == x[0] && s[i + |x| - 1] == x[|x| - 1];
      assert s[j] == r[0] && s[j + |r| - 1] == r[|r| - 1];
    }
  }

  /** Stripping leaves nothing exactly when every character is one to drop. */
  lemma StripEmpty(s: string, drop: char -> bool)
    ensures Strip(s, drop) == [] <==> forall i :: 0 <= i < |s| ==> drop(s[i])
  {
    var t := TrimStart(s, drop);
    assert t == s[|s| - |t|..];
    if t != [] {
      assert !drop(t[0]);
    }
  }

  /** Stripping leaves a string alone when neither end is a character to drop. */
  lemma StripKeeps(s: string, drop: char -> bool)
    requires s == [] || (!drop(s[0]) && !drop(s[|s| - 1]))
    ensures Strip(s, drop) == s
  {
    assert TrimStart(s, drop) == s;
  }

  /** Stripping removes exactly one dropped last character when the ones before it stay. */
  lemma StripLast(s: string, drop: char -> bool)
    requires |s| >= 2 && !drop(s[0]) && !drop(s[|s| - 2]) && drop(s[|s| - 1])
    ensures Strip(s, drop) == s[..|s| - 1]
  {
    assert TrimStart(s, drop) == s;
    var r := TrimEnd(s, drop);
    assert |r| == |s| - 1;
  }

  /** Python's `s.strip()` with no argument. */
  function StripSpace(s: string): string {
    Strip(s, IsPyWhitespace)
  }

  /** `pat` occurs in `s` at position `i`. */
  predicate MatchAt(s: string, pat: string, i: int) {
    0 <= i && i + |pat| <= |s| && s[i..i + |pat|] == pat
  }

  /** The first position at or after `from` where `pat` occurs in `s`. */
  function IndexFrom(s: string, pat: string, from: nat): (r: Option<nat>)
    requires from <= |s|
    ensures r.Some? ==> from <= r.value && MatchAt(s, pat, r.value)
    ensures r.Some? ==> forall i :: from <= i < r.value ==> !MatchAt(s, pat, i)
    ensures r.None? ==> forall i :: from <= i ==> !MatchAt(s, pat, i)
    decreases |s| - from
  {
    if MatchAt(s, pat, from) then Some(from)
    else if from + |pat| >= |s| then None
    else IndexFrom(s, pat, from + 1)
  }

  /** The first position of `pat` in `s` (Python's `s.find(pat)`, None for -1). */
  function IndexOf(s: string, pat: string): (r: Option<nat>)
    ensures r.Some? ==> MatchAt(s, pat, r.value)
    ensures r.Some? ==> forall i :: 0 <= i < r.value ==> !MatchAt(s, pat, i)
    ensures r.None? ==> forall i :: !MatchAt(s, pat, i)
  {
    IndexFrom(s, pat, 0)
  }

  /** Python's `pat in s`. */
  predicate Contains(s: string, pat: string) {
    IndexOf(s, pat).Some?
  }

  /** Python's `s.startswith(p)`. */
  predicate StartsWith(s: string, p: string) {
    |p| <= |s| && s[..|p|] == p
  }

  /** Python's `s.split(sep)[0]` for a non-empty `sep`: the text before the first `sep`. */
  function Before(s: string, sep: string): (r: string)
    ensures |r| <= |s| && r == s[..|r|]
    ensures forall i :: 0 <= i < |r| ==> !MatchAt(s, sep, i)
    ensures |r| < |s| ==> MatchAt(s, sep, |r|)
    ensures !Contains(s, sep) ==> r == s
  {
    match IndexOf(s, sep)
    case Some(i) => s[..i]
    case None => s
  }

  /** The text after the first `sep` (so `s.split(sep)[1]` is `Before(After(s, sep), sep)`). */
  function After(s: string, sep: string): (r: string)
    requires Contains(s, sep)
    ensures |r| + |sep| <= |s| && r == s[|s| - |r|..]
  {
    s[IndexOf(s, sep).value + |sep|..]
  }

  /** A string splits around the first occurrence of a separator it contains. */
  lemma BeforeSepAfter(s: string, sep: string)
    requires Contains(s, sep)
    ensures s == Before(s, sep) + sep + After(s, sep)
  {
    var i := IndexOf(s, sep).value;
    assert s == s[..i] + s[i..i + |sep|] + s[i + |sep|..];
  }

  /** Cutting at the first `c` leaves no `c`, and stops either at the end or at a `c`. */
  lemma BeforeChar(s: string, c: char)
    ensures c !in Before(s, [c])
    ensures |Before(s, [c])| == |s| || s[|Before(s, [c])|] == c
  {
    var r := Before(s, [c]);
    forall i | 0 <= i < |r| ensures r[i] != c {
      assert !MatchAt(s, [c], i) && s[i..i + 1] == [s[i]];
    }
    if |r| < |s| {
      assert MatchAt(s, [c], |r|) && s[|r|..|r| + 1] == [s[|r|]];
    }
  }

  function LowerChar(c: char): char {
    if 'A' <= c <= 'Z' then (c as int + 32) as char else c
  }

  /** Python's `s.lower()` restricted to ASCII letters. */
  function LowerAscii(s: string): (r: string)
    ensures |r| == |s|
  {
    seq(|s|, i requires 0 <= i < |s| => LowerChar(s[i]))
  }

  /** The first `n` elements, Python's `s[:n]` for `n >= 0`. */
  function Prefix<T>(s: seq<T>, n: nat): (r: seq<T>)
    ensures |r| == if |s| < n then |s| else n
    ensures r == s[..|r|]
  {
    if |s| <= n then s else s[..n]
  }

  predicate IsDigit(c: char) {
    '0' <= c <= '9'
  }

  function DigitChar(d: nat): (c: char)
    requires d < 10
    ensures IsDigit(c) && c as int - '0' as int == d
  {
    (d + '0' as int) as char
  }

  /** The decimal digits of `n`, without leading zeros. */
  function NatToString(n: nat): (r: string)
    ensures |r| >= 1
    ensures forall i :: 0 <= i < |r| ==> IsDigit(r[i])
  {
    if n < 10 then [DigitChar(n)] else NatToString(n / 10) + [DigitChar(n % 10)]
  }

  /** The decimal numeral of `n` starts with `0` only when it is `0` itself. */
  lemma {:induction false} NoLeadingZero(n: nat)
    ensures NatToString(n)[0] == '0' ==> |NatToString(n)| == 1
  {
    if n >= 10 {
      NoLeadingZero(n / 10);
      assert NatToString(n)[0] == NatToString(n / 10)[0];
      assert NatToString(n / 10)[0] != '0' by {
        NonZeroLead(n / 10);
      }
    }
  }

  /** The numeral of a positive number starts with a non-zero digit. */
  lemma {:induction false} NonZeroLead(n: nat)
    requires n >= 1
    ensures NatToString(n)[0] != '0'
  {
    if n >= 10 {
      NonZeroLead(n / 10);
      assert NatToString(n)[0] == NatToString(n / 10)[0];
    }
  }

  /** Python's `str(n)` / `f"{n}"` for an `int`. */
  function IntToString(n: int): (r: string)
    ensures |r| >= 1
    ensures forall i :: 0 <= i < |r| ==> IsDigit(r[i]) || (i == 0 && r[i] == '-')
  {
    if n < 0 then "-" + NatToString(-n) else NatToString(n)
  }

  /** Reads back a string of decimal digits. */
  function ParseNat(s: string): int
    requires forall i :: 0 <= i < |s| ==> IsDigit(s[i])
  {
    if s == [] then 0 else ParseNat(s[..|s| - 1]) * 10 + (s[|s| - 1] as int - '0' as int)
  }

  /** Reads back an optionally negative decimal numeral. */
  function ParseInt(s: string): int
    requires |s| >= 1
    requires forall i :: 0 <= i < |s| ==> IsDigit(s[i]) || (i == 0 && s[i] == '-')
  {
    if s[0] == '-' then -ParseNat(s[1..]) else ParseNat(s)
  }

  lemma {:induction false} ParseNatToString(n: nat)
    ensures ParseNat(NatToString(n)) == n
  {
    if n >= 10 {
      var s := NatToString(n);
      assert s[..|s| - 1] == NatToString(n / 10);
      ParseNatToString(n / 10);
    }
  }

  /** Rendering an integer in decimal loses nothing: it reads back as itself. */
  lemma ParseIntToString(n: int)
    ensures ParseInt(IntToString(n)) == n
  {
    if n < 0 {
      assert IntToString(n)[1..] == NatToString(-n);
      ParseNatToString(-n);
    } else {
      ParseNatToString(n);
    }
  }

  /** Two integers with the same decimal rendering are equal. */
  lemma IntToStringInjective(a: int, b: int)
    ensures IntToString(a) == IntToString(b) <==> a == b
  {
    if IntToString(a) == IntToString(b) {
      ParseIntToString(a);
      ParseIntToString(b);
    }
  }

  /** A decimal rendering never contains `c` when `c` is neither a digit nor `-`. */
  lemma IntToStringAvoids(n: int, c: char)
    requires !IsDigit(c) && c != '-'
    ensures c !in IntToString(n)
  {
  }

  /** A character that does not occur in `s` is not found in it. */
  lemma CharNotContained(s: string, c: char)
    requires c !in s
    ensures !Contains(s, [c])
  {
    forall i | 0 <= i ensures !MatchAt(s, [c], i) {
      if i < |s| {
        assert s[i] in s;
      }
    }
  }

  /** The first `c` of `a + [c] + t` is the one after `a` when `a` holds none. */
  lemma SplitFirst(a: string, t: string, c: char)
    requires c !in a
    ensures Contains(a + [c] + t, [c])
    ensures Before(a + [c] + t, [c]) == a && After(a + [c] + t, [c]) == t
  {
    var s := a + [c] + t;
    assert s[|a|..|a| + 1] == [c];
    assert MatchAt(s, [c], |a|);
    forall i | 0 <= i < |a| ensures !MatchAt(s, [c], i) {
      assert s[i] == a[i];
      assert a[i] in a;
    }
    assert IndexOf(s, [c]) == Some(|a|);
    assert s[..|a|] == a && s[|a| + 1..] == t;
  }

  /** In `a + [c] + t` with `c` not in `a`, the first `c` sits right after `a`. */
  lemma SeparatorPosition(a: string, t: string, c: char)
    requires c !in a
    ensures (a + [c] + t)[|a|] == c
    ensures forall k :: 0 <= k < |a| ==> (a + [c] + t)[k] != c
  {
    forall k | 0 <= k < |a| ensures (a + [c] + t)[k] != c {
      assert (a + [c] + t)[k] == a[k];
    }
  }

  /**
   * Splitting at the first occurrence of a separator character is unambiguous:
   * if neither head contains `c`, `a1 + [c] + t1 == a2 + [c] + t2` forces equal parts.
   */
  lemma SplitAtSeparator(a1: string, t1: string, a2: string, t2: string, c: char)
    requires c !in a1 && c !in a2
    ensures a1 + [c] + t1 == a2 + [c] + t2 <==> a1 == a2 && t1 == t2
  {
    var s1, s2 := a1 + [c] + t1, a2 + [c] + t2;
    if s1 == s2 {
      SeparatorPosition(a1, t1, c);
      SeparatorPosition(a2, t2, c);
      assert a1 == s1[..|a1|] && a2 == s2[..|a2|];
      assert t1 == s1[|a1| + 1..] && t2 == s2[|a2| + 1..];
    }
  }
}
