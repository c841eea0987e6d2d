/**
 * Python's integer/text conversions as the program uses them: `str(n)`,
 * `int(s)` and the thousands-separator format `f"{n:,}"`.
 */
module Numbers {
  import opened Optional
  import opened Strings

  predicate IsDigit(c: char) {
    '0' <= c <= '9'
  }

  /** A non-empty run of ASCII decimal digits. */
  predicate IsDecimal(s: string) {
    |s| > 0 && forall i :: 0 <= i < |s| ==> IsDigit(s[i])
  }

  function DigitValue(c: char): nat
    requires IsDigit(c)
  {
    c as int - '0' as int
  }

  function DigitChar(d: nat): (c: char)
    requires d < 10
    ensures IsDigit(c) && DigitValue(c) == d
  {
    ('0' as int + d) as char
  }

  /** The value of a string of digits, most significant first; leading zeros are allowed. */
  function DecimalValue(s: string): nat
    requires forall i :: 0 <= i < |s| ==> IsDigit(s[i])
    decreases |s|
  {
    if |s| == 0 then 0 else DecimalValue(s[..|s| - 1]) * 10 + DigitValue(s[|s| - 1])
  }

  /** `str(n)` for a non-negative `n`: its decimal digits, most significant first. */
  function NatToString(n: nat): (r: string)
    ensures |r| >= 1
    decreases n
  {
    if n < 10 then [DigitChar(n)] else NatToString(n / 10) + [DigitChar(n % 10)]
  }

  /** `str(n)` is digits only, has no leading zero, and reading the digits back gives `n`. */
  lemma {:induction false} NatToStringSpec(n: nat)
    ensures var r := NatToString(n);
      && IsDecimal(r)
      && (|r| > 1 ==> r[0] != '0')
      && DecimalValue(r) == n
    decreases n
  {
    if n >= 10 {
      NatToStringSpec(n / 10);
      var p := NatToString(n / 10);
      var r := NatToString(n);
      assert r[..|r| - 1] == p;
      forall i | 0 <= i < |r| ensures IsDigit(r[i]) {
        if i < |p| { assert r[i] == p[i]; }
      }
    }
  }

  /** `abs(n)`. */
  function Magnitude(n: int): nat
  {
    if n < 0 then -n else n
  }

  /** The sign Python writes in front of the digits: `-` for a negative number, nothing otherwise. */
  function SignText(n: int): string
  {
    if n < 0 then "-" else ""
  }

  /** `str(n)`: a minus sign exactly for negative `n`, then the digits of its magnitude. */
  function IntToString(n: int): (r: string)
    ensures |r| >= 1 && (r[0] == '-' <==> n < 0)
  {
    NatToStringSpec(Magnitude(n));
    SignText(n) + NatToString(Magnitude(n))
  }

  /**
   * The value of a non-empty run of digits, built from its last digit back
   * (all but the last digit, times ten, plus the last); `None` if any
   * character is not a digit.
   */
  function ReadDigits(s: string): Option<nat>
    decreases |s|
  {
    if |s| == 0 || !IsDigit(s[|s| - 1]) then None
    else if |s| == 1 then Some(DigitValue(s[0]))
    else match ReadDigits(s[..|s| - 1])
      case None => None
      case Some(v) => Some(v * 10 + DigitValue(s[|s| - 1]))
  }

  /** Reading succeeds exactly on a non-empty run of digits, and gives its decimal value. */
  lemma {:induction false} ReadDigitsDecimal(s: string)
    ensures ReadDigits(s).Some? <==> IsDecimal(s)
    ensures IsDecimal(s) ==> ReadDigits(s) == Some(DecimalValue(s))
    decreases |s|
  {
    if |s| > 1 {
      var p := s[..|s| - 1];
      ReadDigitsDecimal(p);
      if IsDecimal(s) {
        assert IsDecimal(p) by {
          forall i | 0 <= i < |p| ensures IsDigit(p[i]) { assert p[i] == s[i]; }
        }
        assert DecimalValue(p) == 0 ==> DecimalValue(s) == DigitValue(s[|s| - 1]);
      } else if ReadDigits(s).Some? {
        assert IsDecimal(p) && IsDigit(s[|s| - 1]);
        forall i | 0 <= i < |s| ensures IsDigit(s[i]) {
          if i < |p| { assert s[i] == p[i]; }
        }
      }
    } else if |s| == 1 {
      assert s[..0] == [];
    }
  }

  /**
   * The whitespace `int()` skips around the number: the ASCII whitespace
   * characters and the non-ASCII ones `str.isspace()` accepts. Unlike
   * `strip()`, it does not skip the separators U+001C to U+001F.
   */
  const IntWhitespace: set<char> := {
    '\t', '\n', '\U{B}', '\U{C}', '\r', ' ',
    '\U{85}', '\U{A0}', '\U{1680}', '\U{2000}', '\U{2001}', '\U{2002}', '\U{2003}', '\U{2004}', '\U{2005}',
    '\U{2006}', '\U{2007}', '\U{2008}', '\U{2009}', '\U{200A}', '\U{2028}', '\U{2029}', '\U{202F}', '\U{205F}', '\U{3000}'}

  /** The text `int()` reads once the surrounding whitespace is skipped. */
  function IntText(s: string): string
  {
    StripChars(s, IntWhitespace)
  }

  /**
   * `int(s)`, restricted to what the program feeds it: surrounding whitespace,
   * an optional `+` or `-`, then ASCII digits. Anything else is `None` (Python's
   * `ValueError`).
   */
  function ParseInt(s: string): Option<int>
  {
    var t := IntText(s);
    if |t| > 0 && (t[0] == '-' || t[0] == '+') then
      match ReadDigits(t[1..])
      case None => None
      case Some(v) =>
        var n: int := if t[0] == '-' then -(v as int) else v;
        Some(n)
    else match ReadDigits(t)
      case None => None
      case Some(v) => Some(v)
  }

  /**
   * What `int()` accepts: once its whitespace is skipped, an optional sign followed by at
   * least one digit and nothing else; a negative result comes from a minus
   * sign, and plain digits read as their decimal value.
   */
  lemma ParseIntShape(s: string)
    ensures var r, t := ParseInt(s), IntText(s);
      && (r.Some? <==>
        || IsDecimal(t)
        || (|t| > 0 && (t[0] == '-' || t[0] == '+') && IsDecimal(t[1..])))
      && (r.Some? && r.value < 0 ==> t[0] == '-')
      && (IsDecimal(t) ==> r == Some(DecimalValue(t)))
      && (|t| > 0 && IsDecimal(t[1..]) ==>
          && (t[0] == '-' ==> r.Some? && r.value == -(DecimalValue(t[1..]) as int))
          && (t[0] == '+' ==> r == Some(DecimalValue(t[1..]))))
  {
    var t := IntText(s);
    ReadDigitsDecimal(t);
    if |t| > 0 {
      ReadDigitsDecimal(t[1..]);
    }
  }

  /** Signs and digits are not whitespace, so `int()` never skips them. */
  lemma SignOrDigitNotSpace(c: char)
    requires IsDigit(c) || c == '-' || c == '+'
    ensures c !in IntWhitespace
  {
  }

  /**
   * `int()` does not skip the information separators U+001C to U+001F that
   * `strip()` removes: digits behind one are rejected.
   */
  lemma SeparatorNotSkipped(c: char, d: string)
    requires c in {'\U{1C}', '\U{1D}', '\U{1E}', '\U{1F}'} && IsDecimal(d)
    ensures ParseInt([c] + d).None?
    ensures Strip([c] + d) == d
  {
    var s := [c] + d;
    assert s[|s| - 1] == d[|d| - 1];
    StripUnpadded(s, IntWhitespace);
    ParseIntShape(s);
    assert IsSpace(c) && TrimStart(s, Whitespace) == TrimStart(d, Whitespace);
    assert d[0] !in Whitespace && d[|d| - 1] !in Whitespace;
    StripUnpadded(d, Whitespace);
  }

  /** A string that starts and ends with a sign or a digit is read by `int()` as it is. */
  lemma IntTextUnpadded(s: string)
    requires |s| > 0
    requires IsDigit(s[0]) || s[0] == '-' || s[0] == '+'
    requires IsDigit(s[|s| - 1])
    ensures IntText(s) == s
  {
    SignOrDigitNotSpace(s[0]);
    SignOrDigitNotSpace(s[|s| - 1]);
    StripUnpadded(s, IntWhitespace);
  }

  /** An optional minus sign before a run of digits reads as the signed decimal value. */
  lemma SignedDigitsParse(negative: bool, d: string)
    requires IsDecimal(d)
    ensures ParseInt((if negative then "-" else "") + d)
      == Some(if negative then -(DecimalValue(d) as int) else DecimalValue(d))
  {
    var s := (if negative then "-" else "") + d;
    assert s[|s| - 1] == d[|d| - 1];
    assert s[0] == (if negative then '-' else d[0]);
    IntTextUnpadded(s);
    if negative {
      assert s[1..] == d;
    } else {
      assert s == d;
    }
    ParseIntShape(s);
  }

  /** `int(str(n)) == n`: every integer the program prints parses back to itself. */
  lemma ParseIntRoundTrip(n: int)
    ensures ParseInt(IntToString(n)) == Some(n)
  {
    var d := NatToString(Magnitude(n));
    NatToStringSpec(Magnitude(n));
    SignedDigitsParse(n < 0, d);
    assert IntToString(n) == (if n < 0 then "-" else "") + d;
  }

  /** Inserts a comma before every group of three digits counted from the right. */
  function Group(d: string): string
    decreases |d|
  {
    if |d| <= 3 then d else Group(d[..|d| - 3]) + "," + d[|d| - 3..]
  }

  /** `f"{n:,}"`: the sign, then the digits of the magnitude grouped by threes. */
  function WithCommas(n: int): string
  {
    SignText(n) + Group(NatToString(Magnitude(n)))
  }

  /**
   * The comma-separated groups of a grouped digit string: deleting the commas
   * gives the digits back, the first group has one to three digits and every
   * later group exactly three.
   */
  lemma {:induction false} GroupShape(d: string)
    requires IsDecimal(d)
    ensures GroupedDigits(Split(Group(d), ','), d)
    decreases |d|
  {
    if |d| <= 3 {
      NoCommaInDigits(d);
      SplitNoSeparator(d, ',');
      assert Concat([d]) == d + Concat([]);
    } else {
      var a, b := d[..|d| - 3], d[|d| - 3..];
      assert d == a + b;
      GroupShape(a);
      assert Group(d) == Group(a) + [','] + b;
      GroupAppend(Split(Group(a), ','), a, b);
      NoCommaInDigits(b);
      SplitAppend(Group(a), b, ',');
      SplitNoSeparator(b, ',');
    }
  }

  /**
   * `g` is a grouping of the digits `d`: deleting the commas gives `d`, the
   * first group has one to three digits and every later group exactly three.
   */
  ghost predicate GroupedDigits(g: seq<string>, d: string) {
    && |g| >= 1
    && Concat(g) == d
    && 1 <= |g[0]| <= 3
    && (forall i :: 1 <= i < |g| ==> |g[i]| == 3)
    && (forall i :: 0 <= i < |g| ==> IsDecimal(g[i]))
  }

  /** Three more digits after a grouping form one more group. */
  lemma GroupAppend(g: seq<string>, a: string, b: string)
    requires GroupedDigits(g, a) && IsDecimal(b) && |b| == 3
    ensures GroupedDigits(g + [b], a + b)
  {
    ConcatAppend(g, [b]);
    assert Concat([b]) == b + Concat([]);
    var h := g + [b];
    forall i | 0 <= i < |h|
      ensures IsDecimal(h[i]) && (i >= 1 ==> |h[i]| == 3)
    {
      if i < |g| { assert h[i] == g[i]; } else { assert h[i] == b; }
    }
  }

  lemma NoCommaInDigits(d: string)
    requires forall i :: 0 <= i < |d| ==> IsDigit(d[i])
    ensures ',' !in d
  {
    forall i | 0 <= i < |d| ensures d[i] != ',' { assert IsDigit(d[i]); }
  }

  /**
   * `f"{n:,}"` for any integer: deleting the commas gives `str(n)`; after the
   * sign (if any), the first group has one to three digits and every later
   * group exactly three.
   */
  lemma WithCommasShape(n: int)
    ensures Concat(Split(WithCommas(n), ',')) == IntToString(n)
    ensures var g := Split(WithCommas(n), ',');
      if n >= 0 then GroupedDigits(g, IntToString(n))
      else |g[0]| >= 1 && g[0][0] == '-' && GroupedDigits([g[0][1..]] + g[1..], NatToString(-n))
  {
    var d := NatToString(Magnitude(n));
    NatToStringSpec(Magnitude(n));
    GroupShape(d);
    if n >= 0 {
      assert WithCommas(n) == Group(d);
      assert IntToString(n) == d;
    } else {
      assert WithCommas(n) == "-" + Group(d);
      assert IntToString(n) == "-" + d;
      NegativeGroups(d);
    }
  }

  /** The minus sign of a negative number sticks to the first group. */
  lemma NegativeGroups(d: string)
    requires GroupedDigits(Split(Group(d), ','), d)
    ensures var g := Split("-" + Group(d), ',');
      && Concat(g) == "-" + d
      && |g[0]| >= 1 && g[0][0] == '-'
      && [g[0][1..]] + g[1..] == Split(Group(d), ',')
  {
    var rest := Split(Group(d), ',');
    SplitCons('-', Group(d), ',');
    var g := Split("-" + Group(d), ',');
    assert g == [['-'] + rest[0]] + rest[1..];
    assert g[1..] == rest[1..];
    assert Concat(rest) == rest[0] + Concat(rest[1..]);
    assert (['-'] + rest[0])[1..] == rest[0];
  }
}
