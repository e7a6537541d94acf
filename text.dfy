/** String and numeral helpers that stand in for the JavaScript built-ins the
    watermarker uses: String.prototype.split with a one-character separator,
    toLowerCase, Number.prototype.toString(radix) and Number(digitString). */
module Text {

  datatype Option<T> = None | Some(value: T)

  // ---------------------------------------------------------------------------
  // Splitting on a one-character separator
  // ---------------------------------------------------------------------------

  /** Position of the first occurrence of `c` in `s`. */
  function FirstIndex(s: string, c: char): (i: nat)
    requires c in s
    ensures i < |s| && s[i] == c && c !in s[..i]
  {
    if s[0] == c then 0
    else
      var j := FirstIndex(s[1..], c);
      assert s[..1 + j] == [s[0]] + s[1..][..j];
      1 + j
  }

  /** Inverse of Split: the segments glued back together with `sep` between them. */
  function Join(parts: seq<string>, sep: char): string
    requires |parts| >= 1
  {
    if |parts| == 1 then parts[0] else parts[0] + [sep] + Join(parts[1..], sep)
  }

  /** `s.split(sep)`: the maximal pieces of `s` between occurrences of `sep`,
      empty pieces included, so there is always at least one. */
  function Split(s: string, sep: char): (parts: seq<string>)
    ensures |parts| >= 1
    ensures forall k :: 0 <= k < |parts| ==> sep !in parts[k]
    ensures Join(parts, sep) == s
    decreases |s|
  {
    if sep !in s then [s]
    else
      var i := FirstIndex(s, sep);
      var rest := Split(s[i + 1..], sep);
      assert ([s[..i]] + rest)[1..] == rest;
      assert s == s[..i] + [sep] + s[i + 1..];
      [s[..i]] + rest
  }

  /** The last piece of `s.split(sep)`, which is what `.pop()` returns: the
      separator-free suffix of `s` that is all of `s` or follows a separator. */
  function LastSegment(s: string, sep: char): (r: string)
    ensures sep !in r
    ensures |r| <= |s| && s[|s| - |r|..] == r
    ensures |r| < |s| ==> s[|s| - |r| - 1] == sep
  {
    var parts := Split(s, sep);
    var n := |parts|;
    if n == 1 then parts[0]
    else
      var init := parts[..n - 1];
      JoinSnoc(init, sep, parts[n - 1]);
      assert init + [parts[n - 1]] == parts;
      var front := Join(init, sep) + [sep];
      assert s == front + parts[n - 1];
      assert s[|front|..] == parts[n - 1];
      parts[n - 1]
  }

  /** When `a` contains no separator, the first separator of `a + [sep] + b` is the one after `a`. */
  lemma FirstIndexAfterPrefix(a: string, sep: char, b: string)
    requires sep !in a
    ensures FirstIndex(a + [sep] + b, sep) == |a|
  {
    var s := a + [sep] + b;
    assert s[|a|] == sep;
    assert forall k :: 0 <= k < |a| ==> s[k] == a[k];
  }

  /** Splitting inverts joining: a list of separator-free pieces is recovered exactly. */
  lemma {:induction false} SplitJoin(parts: seq<string>, sep: char)
    requires |parts| >= 1
    requires forall k :: 0 <= k < |parts| ==> sep !in parts[k]
    ensures Split(Join(parts, sep), sep) == parts
  {
    if |parts| > 1 {
      var first, tail := parts[0], parts[1..];
      var rest := Join(tail, sep);
      var s := first + [sep] + rest;
      assert Join(parts, sep) == s;
      SplitJoin(tail, sep);
      assert sep in s && FirstIndex(s, sep) == |first| && s[..|first|] == first && s[|first| + 1..] == rest by {
        FirstIndexAfterPrefix(first, sep, rest);
      }
      assert parts == [first] + tail;
    }
  }

  /** Appending a separator and a separator-free `b` adds exactly the piece `b`. */
  lemma SplitAppend(a: string, sep: char, b: string)
    requires sep !in b
    ensures Split(a + [sep] + b, sep) == Split(a, sep) + [b]
  {
    var parts := Split(a, sep) + [b];
    JoinSnoc(Split(a, sep), sep, b);
    SplitJoin(parts, sep);
  }

  lemma {:induction false} JoinSnoc(parts: seq<string>, sep: char, b: string)
    requires |parts| >= 1
    ensures Join(parts + [b], sep) == Join(parts, sep) + [sep] + b
  {
    if |parts| > 1 {
      assert (parts + [b])[1..] == parts[1..] + [b];
      JoinSnoc(parts[1..], sep, b);
    }
  }

  // ---------------------------------------------------------------------------
  // Case
  // ---------------------------------------------------------------------------

  /** toLowerCase on the ASCII letters; every other character is kept. */
  function LowerChar(c: char): char
  {
    if 'A' <= c <= 'Z' then (c as int + 32) as char else c
  }

  function Lower(s: string): (r: string)
    ensures |r| == |s|
    ensures forall k :: 0 <= k < |s| ==> r[k] == LowerChar(s[k])
  {
    seq(|s|, k requires 0 <= k < |s| => LowerChar(s[k]))
  }

  /** A string with no upper-case letter is its own lower case. */
  lemma LowerUnchanged(s: string)
    requires forall k :: 0 <= k < |s| ==> !('A' <= s[k] <= 'Z')
    ensures Lower(s) == s
  {
    assert forall k :: 0 <= k < |s| ==> Lower(s)[k] == s[k];
  }

  // ---------------------------------------------------------------------------
  // Positional numerals
  // ---------------------------------------------------------------------------

  /** The two radices the program prints numbers in. */
  predicate IsRadix(base: nat) { base == 10 || base == 16 }

  /** The digits of `n` in `base`, most significant first, without leading zeros. */
  function ToDigits(n: nat, base: nat): (ds: seq<nat>)
    requires IsRadix(base)
    ensures 1 <= |ds|
    ensures forall k :: 0 <= k < |ds| ==> ds[k] < base
    ensures ds[0] == 0 ==> n == 0
    ensures n < base <==> |ds| == 1
    decreases n
  {
    if n < base then [n] else ToDigits(n / base, base) + [n % base]
  }

  /** The number a digit sequence denotes in `base`; the empty sequence denotes 0. */
  function FromDigits(ds: seq<nat>, base: nat): nat
  {
    if ds == [] then 0 else FromDigits(ds[..|ds| - 1], base) * base + ds[|ds| - 1]
  }

  lemma {:induction false} FromToDigits(n: nat, base: nat)
    requires IsRadix(base)
    ensures FromDigits(ToDigits(n, base), base) == n
  {
    if n >= base {
      var ds := ToDigits(n, base);
      assert ds[..|ds| - 1] == ToDigits(n / base, base);
      FromToDigits(n / base, base);
    }
  }

  /** A leading zero digit does not change the value. */
  lemma {:induction false} FromDigitsLeadingZero(ds: seq<nat>, base: nat)
    ensures FromDigits([0] + ds, base) == FromDigits(ds, base)
  {
    if ds != [] {
      assert ([0] + ds)[..|ds|] == [0] + ds[..|ds| - 1];
      FromDigitsLeadingZero(ds[..|ds| - 1], base);
    }
  }

  /** A digit sequence that starts with a non-zero digit denotes at least `base`^(length-1), so at least 1. */
  lemma {:induction false} FromDigitsPositive(ds: seq<nat>, base: nat)
    requires IsRadix(base)
    requires ds != [] && ds[0] != 0
    ensures FromDigits(ds, base) >= 1
    ensures |ds| >= 2 ==> FromDigits(ds, base) >= base
  {
    if |ds| >= 2 {
      FromDigitsPositive(ds[..|ds| - 1], base);
    }
  }

  /** Digits without a leading zero are exactly the digits of the number they denote. */
  lemma {:induction false} ToFromDigits(ds: seq<nat>, base: nat)
    requires IsRadix(base)
    requires ds != [] && (ds[0] != 0 || |ds| == 1)
    requires forall k :: 0 <= k < |ds| ==> ds[k] < base
    ensures ToDigits(FromDigits(ds, base), base) == ds
  {
    if |ds| >= 2 {
      var init := ds[..|ds| - 1];
      var d := ds[|ds| - 1];
      FromDigitsPositive(ds, base);
      FromDigitsPositive(init, base);
      var n := FromDigits(ds, base);
      assert n == FromDigits(init, base) * base + d;
      assert n / base == FromDigits(init, base) && n % base == d;
      ToFromDigits(init, base);
      assert ds == init + [d];
    }
  }

  /** The character JavaScript's toString(radix) prints for digit `d` (lower case). */
  function DigitChar(d: nat): char
    requires d < 16
  {
    if d < 10 then ('0' as int + d) as char else ('a' as int + d - 10) as char
  }

  /** The value of a digit character, inverse of DigitChar. */
  function CharValue(c: char): nat
  {
    if '0' <= c <= '9' then c as int - '0' as int
    else if 'a' <= c <= 'f' then c as int - 'a' as int + 10
    else 0
  }

  predicate IsDigit(c: char) { '0' <= c <= '9' }

  predicate IsLowerHexChar(c: char) { '0' <= c <= '9' || 'a' <= c <= 'f' }

  /** `n.toString(base)` for a non-negative integer `n`. */
  function Numeral(n: nat, base: nat): (s: string)
    requires IsRadix(base)
    ensures |s| == |ToDigits(n, base)|
    ensures forall k :: 0 <= k < |s| ==> IsLowerHexChar(s[k]) && CharValue(s[k]) < base
  {
    var ds := ToDigits(n, base);
    seq(|ds|, k requires 0 <= k < |ds| => DigitChar(ds[k]))
  }

  /** The digit values of the characters of `s`. */
  function DigitValues(s: string): (ds: seq<nat>)
    ensures |ds| == |s|
    ensures forall k :: 0 <= k < |s| ==> ds[k] == CharValue(s[k])
  {
    seq(|s|, k requires 0 <= k < |s| => CharValue(s[k]))
  }

  /** The number a string of digit characters denotes in `base`. */
  function NumeralValue(s: string, base: nat): nat
  {
    FromDigits(DigitValues(s), base)
  }

  lemma NumeralRoundTrip(n: nat, base: nat)
    requires IsRadix(base)
    ensures NumeralValue(Numeral(n, base), base) == n
  {
    assert DigitValues(Numeral(n, base)) == ToDigits(n, base);
    FromToDigits(n, base);
  }

  lemma NumeralLeadingZero(s: string, base: nat)
    ensures NumeralValue("0" + s, base) == NumeralValue(s, base)
  {
    assert DigitValues("0" + s) == [0] + DigitValues(s);
    FromDigitsLeadingZero(DigitValues(s), base);
  }

  /** A decimal digit string without a leading zero is how its own value prints. */
  lemma NumeralOfDigits(t: string)
    requires t != [] && (t[0] != '0' || |t| == 1)
    requires forall k :: 0 <= k < |t| ==> IsDigit(t[k])
    ensures Numeral(NumeralValue(t, 10), 10) == t
  {
    var ds := DigitValues(t);
    ToFromDigits(ds, 10);
    assert Numeral(NumeralValue(t, 10), 10) == t;
  }

  /** A number below `base` squared has at most two digits. */
  lemma NumeralAtMostTwo(n: nat, base: nat)
    requires IsRadix(base)
    requires n < base * base
    ensures |Numeral(n, base)| <= 2
  {
  }

  /** `n.toString()` for an integer: a minus sign before the decimal digits of |n|. */
  function Decimal(n: int): (s: string)
    ensures s != []
    ensures s[0] == '-' <==> n < 0
    ensures var t := if n < 0 then s[1..] else s;
            t != [] && (t[0] != '0' || |t| == 1) && forall k :: 0 <= k < |t| ==> IsDigit(t[k])
  {
    var m: nat := if n < 0 then -n else n;
    var ds := ToDigits(m, 10);
    assert forall k :: 0 <= k < |Numeral(m, 10)| ==> Numeral(m, 10)[k] == DigitChar(ds[k]);
    if n < 0 then "-" + Numeral(-n, 10) else Numeral(n, 10)
  }

  /** The digits after the sign read back as |n|. */
  lemma DecimalRoundTrip(n: int)
    ensures n >= 0 ==> NumeralValue(Decimal(n), 10) == n
    ensures n < 0 ==> NumeralValue(Decimal(n)[1..], 10) == -n
  {
    if n < 0 {
      NumeralRoundTrip(-n, 10);
      assert Decimal(n)[1..] == Numeral(-n, 10);
    } else {
      NumeralRoundTrip(n, 10);
    }
  }

  /** `s.replace(/\D/g, "")`: the decimal digit characters of `s`, in order.
      A string of digits is kept whole and a string without any is emptied;
      with DigitsOfAppend this pins down the whole function. */
  function DigitsOf(s: string): (r: string)
    ensures forall k :: 0 <= k < |r| ==> IsDigit(r[k])
    ensures |r| <= |s|
    ensures (forall k :: 0 <= k < |s| ==> IsDigit(s[k])) ==> r == s
    ensures (forall k :: 0 <= k < |s| ==> !IsDigit(s[k])) ==> r == []
  {
    if s == [] then []
    else
      assert forall k :: 0 <= k < |s| - 1 ==> s[1..][k] == s[k + 1];
      if IsDigit(s[0]) then [s[0]] + DigitsOf(s[1..]) else DigitsOf(s[1..])
  }

  /** Stripping non-digits works piece by piece. */
  lemma {:induction false} DigitsOfAppend(a: string, b: string)
    ensures DigitsOf(a + b) == DigitsOf(a) + DigitsOf(b)
  {
    if a == [] {
      assert a + b == b;
    } else {
      assert (a + b)[0] == a[0];
      assert (a + b)[1..] == a[1..] + b;
      DigitsOfAppend(a[1..], b);
    }
  }

  /** `Number(digits)` for a string of decimal digits; `Number("")` is 0. */
  function DecimalValue(digits: string): nat
  {
    NumeralValue(digits, 10)
  }
}
