/** Option, used wherever the program may find nothing or fail to parse. */
module Optional {
  datatype Option<+T> = None | Some(value: T)
}

/**
 * The few Python `str` operations the program relies on: `strip()`,
 * `split(',')`, `upper()` and left-aligned padding (`f"{s:<w}"`).
 */
module Strings {

  /** The characters Python's `str.isspace()` accepts, which `strip()` removes. */
  const Whitespace: set<char> := {
    '\t', '\n', '\U{B}', '\U{C}', '\r', '\U{1C}', '\U{1D}', '\U{1E}', '\U{1F}', ' ',
    '\U{85}', '\U{A0}', '\U{1680}', '\U{2000}', '\U{2001}', '\U{2002}', '\U{2003}', '\U{2004}', '\U{2005}',
    '\U{2006}', '\U{2007}', '\U{2008}', '\U{2009}', '\U{200A}', '\U{2028}', '\U{2029}', '\U{202F}', '\U{205F}', '\U{3000}'}

  predicate IsSpace(c: char) {
    c in Whitespace
  }

  /** Drops the leading characters that belong to `ws`. */
  function TrimStart(s: string, ws: set<char>): string
    decreases |s|
  {
    if |s| > 0 && s[0] in ws then TrimStart(s[1..], ws) else s
  }

  /** Drops the trailing characters that belong to `ws`. */
  function TrimEnd(s: string, ws: set<char>): string
    decreases |s|
  {
    if |s| > 0 && s[|s| - 1] in ws then TrimEnd(s[..|s| - 1], ws) else s
  }

  /** Trimming the start leaves a suffix of `s` that does not start in `ws`, and drops only characters of `ws`. */
  lemma {:induction false} TrimStartShape(s: string, ws: set<char>)
    ensures var r := TrimStart(s, ws);
      && |r| <= |s| && r == s[|s| - |r|..]
      && (forall j :: 0 <= j < |s| - |r| ==> s[j] in ws)
      && (r == [] || r[0] !in ws)
    decreases |s|
  {
    if |s| > 0 && s[0] in ws {
      TrimStartShape(s[1..], ws);
    }
  }

  /** Trimming the end leaves a prefix of `s` that does not end in `ws`, and drops only characters of `ws`. */
  lemma {:induction false} TrimEndShape(s: string, ws: set<char>)
    ensures var r := TrimEnd(s, ws);
      && |r| <= |s| && r == s[..|r|]
      && (forall j :: |r| <= j < |s| ==> s[j] in ws)
      && (r == [] || r[|r| - 1] !in ws)
    decreases |s|
  {
    if |s| > 0 && s[|s| - 1] in ws {
      TrimEndShape(s[..|s| - 1], ws);
    }
  }

  /** Drops the leading and the trailing characters that belong to `ws`. */
  function StripChars(s: string, ws: set<char>): string
  {
    TrimEnd(TrimStart(s, ws), ws)
  }

  /** `s.strip()`: drops the leading and the trailing whitespace. */
  function Strip(s: string): string
  {
    StripChars(s, Whitespace)
  }

  /**
   * The stripped text is the slice of `s` that starts `i` characters in,
   * where everything before and after the slice is in `ws`, and the slice
   * itself neither starts nor ends with a character of `ws`.
   */
  lemma StripShape(s: string, ws: set<char>)
    ensures var r, i := StripChars(s, ws), |s| - |TrimStart(s, ws)|;
      && 0 <= i && i + |r| <= |s| && r == s[i..i + |r|]
      && (forall j :: 0 <= j < i ==> s[j] in ws)
      && (forall j :: i + |r| <= j < |s| ==> s[j] in ws)
      && (r == [] || (r[0] !in ws && r[|r| - 1] !in ws))
  {
    var t := TrimStart(s, ws);
    TrimStartShape(s, ws);
    TrimEndShape(t, ws);
    var i := |s| - |t|;
    var r := StripChars(s, ws);
    assert r == t[..|r|] == s[i..i + |r|];
    forall j | i + |r| <= j < |s| ensures s[j] in ws {
      assert s[j] == t[j - i];
    }
  }

  /** A string that neither starts nor ends with a character of `ws` is its own strip. */
  lemma StripUnpadded(s: string, ws: set<char>)
    requires s == [] || (s[0] !in ws && s[|s| - 1] !in ws)
    ensures StripChars(s, ws) == s
  {
    assert TrimStart(s, ws) == s;
  }

  /**
   * `s.split(sep)` with an explicit separator: the pieces between separators,
   * empty pieces included.
   */
  function Split(s: string, sep: char): (r: seq<string>)
    ensures |r| >= 1
    decreases |s|
  {
    if |s| == 0 then [""]
    else
      var rest := Split(s[1..], sep);
      if s[0] == sep then [""] + rest
      else [[s[0]] + rest[0]] + rest[1..]
  }

  /** One piece more than there are separators, and no piece contains the separator. */
  lemma {:induction false} SplitCount(s: string, sep: char)
    ensures var r := Split(s, sep);
      && |r| == multiset(s)[sep] + 1
      && forall i :: 0 <= i < |r| ==> sep !in r[i]
    decreases |s|
  {
    if |s| > 0 {
      assert s == [s[0]] + s[1..];
      SplitCount(s[1..], sep);
      var rest := Split(s[1..], sep);
      var r := Split(s, sep);
      if s[0] != sep {
        forall i | 0 <= i < |r| ensures sep !in r[i] {
          if i > 0 { assert r[i] == rest[i]; }
        }
      }
    }
  }

  /** `sep.join(parts)`. */
  function Join(parts: seq<string>, sep: char): string
    requires |parts| >= 1
    decreases |parts|
  {
    if |parts| == 1 then parts[0] else parts[0] + [sep] + Join(parts[1..], sep)
  }

  /** The pieces glued together without any separator (what deleting every separator leaves). */
  function Concat(parts: seq<string>): string
    decreases |parts|
  {
    if |parts| == 0 then "" else parts[0] + Concat(parts[1..])
  }

  /** Gluing two lists of pieces is gluing each list and appending. */
  lemma {:induction false} ConcatAppend(a: seq<string>, b: seq<string>)
    ensures Concat(a + b) == Concat(a) + Concat(b)
    decreases |a|
  {
    if |a| > 0 {
      assert (a + b)[0] == a[0];
      assert (a + b)[1..] == a[1..] + b;
      ConcatAppend(a[1..], b);
    } else {
      assert a + b == b;
    }
  }

  /** Joining the pieces of a split gives back the original string. */
  lemma {:induction false} JoinSplit(s: string, sep: char)
    ensures Join(Split(s, sep), sep) == s
    decreases |s|
  {
    if |s| > 0 {
      var rest := Split(s[1..], sep);
      JoinSplit(s[1..], sep);
      if s[0] == sep {
        assert ([""] + rest)[1..] == rest;
      } else if |rest| == 1 {
      } else {
        var parts := [[s[0]] + rest[0]] + rest[1..];
        assert parts[1..] == rest[1..];
        assert Join(rest, sep) == rest[0] + [sep] + Join(rest[1..], sep);
        assert s == [s[0]] + s[1..];
      }
    }
  }

  /** A separator in the middle splits into the pieces of both sides. */
  lemma {:induction false} SplitAppend(a: string, b: string, sep: char)
    ensures Split(a + [sep] + b, sep) == Split(a, sep) + Split(b, sep)
    decreases |a|
  {
    var s := a + [sep] + b;
    if |a| == 0 {
      assert s[1..] == b;
    } else {
      assert s[1..] == a[1..] + [sep] + b;
      SplitAppend(a[1..], b, sep);
    }
  }

  /** Splitting a join of separator-free pieces gives back the pieces. */
  lemma {:induction false} SplitJoin(parts: seq<string>, sep: char)
    requires |parts| >= 1
    requires forall i :: 0 <= i < |parts| ==> sep !in parts[i]
    ensures Split(Join(parts, sep), sep) == parts
    decreases |parts|
  {
    SplitNoSeparator(parts[0], sep);
    if |parts| > 1 {
      SplitJoin(parts[1..], sep);
      SplitAppend(parts[0], Join(parts[1..], sep), sep);
    }
  }

  /** A leading non-separator character joins the first piece. */
  lemma SplitCons(c: char, s: string, sep: char)
    requires c != sep
    ensures var rest := Split(s, sep);
      Split([c] + s, sep) == [[c] + rest[0]] + rest[1..]
  {
    assert ([c] + s)[1..] == s;
  }

  /** A string without the separator is a single piece. */
  lemma {:induction false} SplitNoSeparator(s: string, sep: char)
    requires sep !in s
    ensures Split(s, sep) == [s]
    decreases |s|
  {
    if |s| > 0 {
      SplitNoSeparator(s[1..], sep);
      assert s == [s[0]] + s[1..];
    }
  }

  /** Python's upper-casing of one character, on the ASCII letters. */
  function UpperChar(c: char): (u: char)
    ensures !('a' <= u <= 'z')
    ensures !('a' <= c <= 'z') ==> u == c
  {
    if 'a' <= c <= 'z' then (c as int - 32) as char else c
  }

  /** `s.upper()`: every letter upper-cased, everything else kept, length kept. */
  function Upper(s: string): (r: string)
    ensures |r| == |s|
    ensures forall i :: 0 <= i < |s| ==> r[i] == UpperChar(s[i])
  {
    seq(|s|, i requires 0 <= i < |s| => UpperChar(s[i]))
  }

  /** Two characters are the same letter in either case, or the same character. */
  predicate SameIgnoringCase(a: char, b: char) {
    || a == b
    || ('a' <= a <= 'z' && b as int == a as int - 32)
    || ('a' <= b <= 'z' && a as int == b as int - 32)
  }

  /** Two characters upper-case alike exactly when they differ at most in case. */
  lemma UpperCharEqual(a: char, b: char)
    ensures UpperChar(a) == UpperChar(b) <==> SameIgnoringCase(a, b)
  {
  }

  /**
   * Two strings upper-case alike exactly when they have the same length and
   * agree character by character up to the case of ASCII letters.
   */
  lemma UpperEqual(a: string, b: string)
    ensures Upper(a) == Upper(b) <==>
      |a| == |b| && forall i :: 0 <= i < |a| ==> SameIgnoringCase(a[i], b[i])
  {
    if Upper(a) == Upper(b) {
      forall i | 0 <= i < |a| ensures SameIgnoringCase(a[i], b[i]) {
        assert Upper(a)[i] == Upper(b)[i];
        UpperCharEqual(a[i], b[i]);
      }
    }
    if |a| == |b| && forall i :: 0 <= i < |a| ==> SameIgnoringCase(a[i], b[i]) {
      forall i | 0 <= i < |a| ensures Upper(a)[i] == Upper(b)[i] {
        UpperCharEqual(a[i], b[i]);
      }
    }
  }

  /**
   * `f"{s:<width}"`: `s` left-aligned and padded with spaces up to `width`
   * characters; a longer `s` is kept whole, never cut.
   */
  function PadRight(s: string, width: nat): string
    decreases width - |s|
  {
    if |s| < width then PadRight(s + " ", width) else s
  }

  /** The padded text is `width` long (or `s` itself when longer), starts with `s` and ends in spaces. */
  lemma {:induction false} PadRightShape(s: string, width: nat)
    ensures var r := PadRight(s, width);
      && |r| == (if |s| < width then width else |s|)
      && r[..|s|] == s
      && (forall i :: |s| <= i < |r| ==> r[i] == ' ')
    decreases width - |s|
  {
    if |s| < width {
      var t := s + " ";
      PadRightShape(t, width);
      var r := PadRight(t, width);
      assert r[..|s|] == r[..|t|][..|s|];
      assert r[|s|] == r[..|t|][|s|];
    }
  }
}
