/**
 * The few string operations the application uses: `String(n)` on a
 * non-negative integer, `padStart(2, "0")` and `split(sep)`, together with
 * a decimal parser that inverts `String(n)`.
 */
module Text {

  predicate IsDigit(c: char) {
    '0' <= c <= '9'
  }

  predicate AllDigits(s: string) {
    forall i | 0 <= i < |s| :: IsDigit(s[i])
  }

  function DigitChar(d: nat): (c: char)
    requires d < 10
    ensures IsDigit(c)
  {
    ('0' as int + d) as char
  }

  function DigitValue(c: char): (d: nat)
    requires IsDigit(c)
    ensures d < 10 && DigitChar(d) == c
  {
    c as int - '0' as int
  }

  /** `String(n)` for a non-negative integer: decimal, no leading zeros. */
  function NatToString(n: nat): (s: string)
    ensures |s| >= 1 && AllDigits(s)
    ensures n < 10 <==> |s| == 1
    decreases n
  {
    if n < 10 then [DigitChar(n)] else NatToString(n / 10) + [DigitChar(n % 10)]
  }

  /** The value of a string of decimal digits (the empty string reads as 0). */
  function ParseNat(s: string): nat
    requires AllDigits(s)
  {
    if s == [] then 0 else ParseNat(s[..|s| - 1]) * 10 + DigitValue(s[|s| - 1])
  }

  /** Reading back what `String(n)` printed gives `n`. */
  lemma {:induction false} ParseNatToString(n: nat)
    ensures ParseNat(NatToString(n)) == n
    decreases n
  {
    if n >= 10 {
      var p := NatToString(n / 10);
      assert NatToString(n) == p + [DigitChar(n % 10)];
      assert (p + [DigitChar(n % 10)])[..|p|] == p;
      ParseNatToString(n / 10);
    }
  }

  /** Leading zeros do not change the value read. */
  lemma {:induction false} ParseNatLeadingZero(s: string)
    requires AllDigits(s)
    ensures AllDigits("0" + s) && ParseNat("0" + s) == ParseNat(s)
    decreases |s|
  {
    if s != [] {
      var t := "0" + s;
      assert t[..|t| - 1] == "0" + s[..|s| - 1];
      ParseNatLeadingZero(s[..|s| - 1]);
    }
  }

  /** The decimal form of a number below `10^k` has at most `k` digits. */
  lemma {:induction false} NatToStringLength(n: nat, k: nat, bound: nat)
    requires bound == Power10(k) && n < bound
    ensures |NatToString(n)| <= k || (n == 0 && k == 0)
    decreases k
  {
    if k > 0 && n >= 10 {
      NatToStringLength(n / 10, k - 1, Power10(k - 1));
    }
  }

  function Power10(k: nat): (p: nat)
    ensures p >= 1
  {
    if k == 0 then 1 else 10 * Power10(k - 1)
  }

  /** `s.padStart(width, "0")`. */
  function PadStart(s: string, width: nat): (r: string)
    ensures |r| == if |s| >= width then |s| else width
  {
    if |s| >= width then s else seq(width - |s|, _ => '0') + s
  }

  /** Zero padding keeps a string of digits a string of digits of the same value. */
  lemma {:induction false} ParseNatPadStart(s: string, width: nat)
    requires AllDigits(s)
    ensures AllDigits(PadStart(s, width)) && ParseNat(PadStart(s, width)) == ParseNat(s)
    decreases width - |s|
  {
    if |s| < width {
      ParseNatLeadingZero(s);
      ParseNatPadStart("0" + s, width);
      assert PadStart(s, width) == PadStart("0" + s, width);
    }
  }

  /** Digits that read as 0 are all `'0'`. */
  lemma {:induction false} ZerosParse(f: string)
    requires AllDigits(f) && ParseNat(f) == 0
    ensures f == seq(|f|, _ => '0')
    decreases |f|
  {
    if f != [] {
      ZerosParse(f[..|f| - 1]);
      assert f == f[..|f| - 1] + [f[|f| - 1]];
    }
  }

  /** Padding a string with one more character at the end pads the shorter string by one less. */
  lemma PadSnoc(s: string, c: char, width: nat)
    requires width >= 1
    ensures PadStart(s + [c], width) == PadStart(s, width - 1) + [c]
  {
    if |s| + 1 < width {
      assert seq(width - |s| - 1, _ => '0') + (s + [c]) == seq(width - 1 - |s|, _ => '0') + s + [c];
    }
  }

  /**
   * A field of `width` digits is the zero-padded decimal spelling of the
   * number it reads as: reading and printing back loses nothing.
   */
  lemma {:induction false} Unparse(f: string, width: nat)
    requires AllDigits(f) && |f| == width >= 1
    ensures PadStart(NatToString(ParseNat(f)), width) == f
    decreases width
  {
    var g, c := f[..|f| - 1], f[|f| - 1];
    assert f == g + [c];
    var n := ParseNat(f);
    assert n == ParseNat(g) * 10 + DigitValue(c);
    if n < 10 {
      assert NatToString(n) == [c];
      if width > 1 {
        ZerosParse(g);
        assert seq(width - 1, _ => '0') + [c] == g + [c];
      }
    } else {
      assert width > 1;
      assert n / 10 == ParseNat(g) && n % 10 == DigitValue(c);
      assert NatToString(n) == NatToString(ParseNat(g)) + [c];
      PadSnoc(NatToString(ParseNat(g)), c, width);
      Unparse(g, width - 1);
    }
  }

  /** `s.split(sep)`: the maximal separator-free pieces, in order. */
  function Split(s: string, sep: char): (parts: seq<string>)
    ensures |parts| >= 1
    ensures forall p | p in parts :: sep !in p
    decreases |s|
  {
    if s == [] then [""]
    else
      var rest := Split(s[1..], sep);
      if s[0] == sep then [""] + rest
      else [[s[0]] + rest[0]] + rest[1..]
  }

  /** `parts.join(sep)`. */
  function Join(parts: seq<string>, sep: char): string
    requires |parts| >= 1
  {
    if |parts| == 1 then parts[0] else parts[0] + [sep] + Join(parts[1..], sep)
  }

  /** Splitting loses nothing: joining the pieces gives the string back. */
  lemma {:induction false} JoinSplit(s: string, sep: char)
    ensures Join(Split(s, sep), sep) == s
    decreases |s|
  {
    if s != [] {
      var rest := Split(s[1..], sep);
      JoinSplit(s[1..], sep);
      if s[0] != sep && |rest| > 1 {
        assert Join(rest, sep) == rest[0] + [sep] + Join(rest[1..], sep);
      }
    }
  }

  /** A string without the separator is a single piece. */
  lemma {:induction false} SplitNoSeparator(s: string, sep: char)
    requires sep !in s
    ensures Split(s, sep) == [s]
    decreases |s|
  {
    if s != [] {
      assert sep !in s[1..];
      SplitNoSeparator(s[1..], sep);
      assert [s[0]] + s[1..] == s;
    }
  }

  /** The first separator ends the first piece. */
  lemma {:induction false} SplitAtSeparator(a: string, sep: char, b: string)
    requires sep !in a
    ensures Split(a + [sep] + b, sep) == [a] + Split(b, sep)
    decreases |a|
  {
    if a == [] {
      assert a + [sep] + b == [sep] + b;
      assert ([sep] + b)[1..] == b;
    } else {
      var s := a + [sep] + b;
      assert s[1..] == a[1..] + [sep] + b;
      assert sep !in a[1..];
      SplitAtSeparator(a[1..], sep, b);
      assert [a[0]] + a[1..] == a;
    }
  }

  /** Two separator-free pieces joined by the separator split back into themselves. */
  lemma SplitPair(a: string, sep: char, b: string)
    requires sep !in a && sep !in b
    ensures Split(a + [sep] + b, sep) == [a, b]
  {
    SplitAtSeparator(a, sep, b);
    SplitNoSeparator(b, sep);
  }

  lemma DigitsHaveNoSeparator(s: string, sep: char)
    requires AllDigits(s) && !IsDigit(sep)
    ensures sep !in s
  {
    assert forall i | 0 <= i < |s| :: s[i] != sep;
  }
}
