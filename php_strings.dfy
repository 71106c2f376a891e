/**
 * The few PHP string built-ins that soar.php relies on, written out:
 * trim, intval on strings, integer-to-string conversion, implode, explode,
 * strpos-as-containment and a case-insensitive prefix test.
 */
module PhpStrings {

  // ---------------------------------------------------------------------
  // trim()
  // ---------------------------------------------------------------------

  /** The characters PHP's trim() strips by default: " \t\n\r\0\x0B". */
  predicate IsTrimSpace(c: char) {
    c == ' ' || c == '\t' || c == '\n' || c == '\r' || c == '\0' || c == '\U{B}'
  }

  predicate AllTrimSpace(s: string) {
    forall i :: 0 <= i < |s| ==> IsTrimSpace(s[i])
  }

  /** Neither end of `s` is a trim character. */
  predicate IsTrimmed(s: string) {
    s == [] || (!IsTrimSpace(s[0]) && !IsTrimSpace(s[|s| - 1]))
  }

  /** ltrim(): drops the leading trim characters and nothing else. */
  function TrimStart(s: string): (r: string)
    ensures |r| <= |s| && r == s[|s| - |r|..]
    ensures AllTrimSpace(s[..|s| - |r|])
    ensures r == [] || !IsTrimSpace(r[0])
  {
    if s != [] && IsTrimSpace(s[0]) then TrimStart(s[1..]) else s
  }

  /** rtrim(): drops the trailing trim characters and nothing else. */
  function TrimEnd(s: string): (r: string)
    ensures |r| <= |s| && r == s[..|r|]
    ensures AllTrimSpace(s[|r|..])
    ensures r == [] || !IsTrimSpace(r[|r| - 1])
  {
    if s != [] && IsTrimSpace(s[|s| - 1]) then TrimEnd(s[..|s| - 1]) else s
  }

  /** trim(): both ends. */
  function Trim(s: string): (r: string)
    ensures IsTrimmed(r)
    ensures |r| <= |s|
  {
    TrimEnd(TrimStart(s))
  }

  lemma {:induction false} TrimStartAt(s: string, i: nat)
    requires i <= |s| && AllTrimSpace(s[..i])
    requires i == |s| || !IsTrimSpace(s[i])
    ensures TrimStart(s) == s[i..]
  {
    if i > 0 {
      assert IsTrimSpace(s[..i][0]);
      assert s[1..][..i - 1] == s[..i][1..];
      TrimStartAt(s[1..], i - 1);
      assert s[1..][i - 1..] == s[i..];
    }
  }

  lemma {:induction false} TrimEndAt(s: string, j: nat)
    requires j <= |s| && AllTrimSpace(s[j..])
    requires j == 0 || !IsTrimSpace(s[j - 1])
    ensures TrimEnd(s) == s[..j]
  {
    if j < |s| {
      assert IsTrimSpace(s[j..][|s| - 1 - j]);
      var t := s[..|s| - 1];
      assert t[j..] == s[j..][..|s| - 1 - j];
      TrimEndAt(t, j);
      assert t[..j] == s[..j];
    }
  }

  /**
   * trim() is characterised without reference to how it scans: whenever `s` is
   * split into trim characters, a middle part with no trim character at either
   * end, and trim characters again, trim(s) is exactly the middle part.
   */
  lemma {:induction false} TrimIsMiddle(s: string, i: nat, j: nat)
    requires i <= j <= |s|
    requires AllTrimSpace(s[..i]) && AllTrimSpace(s[j..])
    requires IsTrimmed(s[i..j])
    ensures Trim(s) == s[i..j]
  {
    if i == j {
      AllTrimSpaceJoin(s, i);
      TrimStartAt(s, |s|);
    } else {
      TrimStartAt(s, i);
      var t := s[i..];
      assert t[j - i..] == s[j..];
      assert t[j - i - 1] == s[i..j][j - i - 1];
      TrimEndAt(t, j - i);
      assert t[..j - i] == s[i..j];
    }
  }

  lemma AllTrimSpaceJoin(s: string, i: nat)
    requires i <= |s| && AllTrimSpace(s[..i]) && AllTrimSpace(s[i..])
    ensures AllTrimSpace(s[..|s|])
  {
    assert s[..|s|] == s[..i] + s[i..];
  }

  /** Trimming twice is trimming once. */
  lemma {:induction false} TrimIdempotent(s: string)
    ensures Trim(Trim(s)) == Trim(s)
  {
    var t := Trim(s);
    assert t[..0] == [] && t[|t|..] == [] && t[0..|t|] == t;
    TrimIsMiddle(t, 0, |t|);
  }

  /** ltrim() and rtrim() commute: either order is trim(). */
  lemma {:induction false} TrimStartEndCommute(s: string)
    ensures TrimStart(TrimEnd(s)) == Trim(s)
  {
    var i, j := TrimBounds(s);
    TrimStartEndIsMiddle(s, i, j);
  }

  /** Where trim() cuts: blanks before i, blanks from j, and the result in between. */
  lemma TrimBounds(s: string) returns (i: nat, j: nat)
    ensures i <= j <= |s| && AllTrimSpace(s[..i]) && AllTrimSpace(s[j..])
    ensures s[i..j] == Trim(s)
  {
    var a := TrimStart(s);
    i := |s| - |a|;
    var b := TrimEnd(a);
    SuffixParts(s, i, a, b);
    j := i + |b|;
  }

  lemma SuffixParts(s: string, i: nat, a: string, b: string)
    requires i <= |s| && a == s[i..] && |b| <= |a| && b == a[..|b|]
    ensures i + |b| <= |s| && s[i..i + |b|] == b && s[i + |b|..] == a[|b|..]
  {
  }

  /** The counterpart of TrimIsMiddle for rtrim() followed by ltrim(). */
  lemma {:induction false} TrimStartEndIsMiddle(s: string, i: nat, j: nat)
    requires i <= j <= |s|
    requires AllTrimSpace(s[..i]) && AllTrimSpace(s[j..])
    requires IsTrimmed(s[i..j])
    ensures TrimStart(TrimEnd(s)) == s[i..j]
  {
    if i == j {
      AllTrimSpaceJoin(s, i);
      assert s[..|s|] == s && s[0..] == s;
      TrimEndAt(s, 0);
    } else {
      assert s[j - 1] == s[i..j][j - i - 1] && s[i] == s[i..j][0];
      TrimEndAt(s, j);
      var t := s[..j];
      assert t[..i] == s[..i] && t[i..] == s[i..j];
      TrimStartAt(t, i);
    }
  }

  // ---------------------------------------------------------------------
  // preg_match('/^p/i', s): a case-insensitive (ASCII) prefix test
  // ---------------------------------------------------------------------

  function LowerAscii(c: char): (d: char)
    ensures 'A' <= c <= 'Z' ==> 'a' <= d <= 'z'
    ensures !('A' <= c <= 'Z') ==> d == c
  {
    if 'A' <= c <= 'Z' then (c as int + 32) as char else c
  }

  predicate StartsWithIgnoreCase(s: string, p: string) {
    |p| <= |s| && forall i :: 0 <= i < |p| ==> LowerAscii(s[i]) == LowerAscii(p[i])
  }

  predicate IsPrefix(p: string, s: string) {
    |p| <= |s| && s[..|p|] == p
  }

  /** strpos(s, t) !== false */
  predicate Contains(s: string, t: string)
    decreases |s|
  {
    IsPrefix(t, s) || (s != [] && Contains(s[1..], t))
  }

  // ---------------------------------------------------------------------
  // Decimal digits, intval() and integer-to-string conversion
  // ---------------------------------------------------------------------

  predicate IsDigit(c: char) {
    '0' <= c <= '9'
  }

  predicate AllDigits(s: string) {
    forall i :: 0 <= i < |s| ==> IsDigit(s[i])
  }

  function DigitValue(c: char): nat
    requires IsDigit(c)
  {
    c as int - '0' as int
  }

  function DigitChar(d: nat): (c: char)
    requires d < 10
    ensures IsDigit(c) && DigitValue(c) == d
  {
    ('0' as int + d) as char
  }

  /** The value of a string of decimal digits; the empty string is 0. */
  function DigitsValue(s: string): nat
    requires AllDigits(s)
  {
    if s == [] then 0 else 10 * DigitsValue(s[..|s| - 1]) + DigitValue(s[|s| - 1])
  }

  /** The longest prefix of `s` made of digits. */
  function LeadingDigits(s: string): (r: string)
    ensures IsPrefix(r, s) && AllDigits(r)
    ensures |r| == |s| || !IsDigit(s[|r|])
  {
    if s != [] && IsDigit(s[0]) then [s[0]] + LeadingDigits(s[1..]) else []
  }

  /** The whitespace PHP's numeric-string parser skips before a number: " \t\n\r\v\f". */
  predicate IsNumericSpace(c: char) {
    c == ' ' || c == '\t' || c == '\n' || c == '\r' || c == '\U{B}' || c == '\U{C}'
  }

  function SkipNumericSpace(s: string): (r: string)
    ensures |r| <= |s| && r == s[|s| - |r|..]
    ensures r == [] || !IsNumericSpace(r[0])
  {
    if s != [] && IsNumericSpace(s[0]) then SkipNumericSpace(s[1..]) else s
  }

  /**
   * intval() of a string: leading whitespace is skipped, then an optional sign,
   * then the longest run of digits; no digits at all give 0.
   */
  function IntVal(s: string): int
  {
    var t := SkipNumericSpace(s);
    if t != [] && (t[0] == '-' || t[0] == '+') then
      var m: int := DigitsValue(LeadingDigits(t[1..]));
      if t[0] == '-' then -m else m
    else
      DigitsValue(LeadingDigits(t))
  }

  /** The decimal spelling of a natural number, without leading zeros. */
  function NatToString(n: nat): (s: string)
    ensures s != [] && AllDigits(s)
    ensures DigitsValue(s) == n
    ensures s[0] == '0' ==> n == 0
    decreases n
  {
    if n < 10 then [DigitChar(n)]
    else
      var p := NatToString(n / 10);
      var s := p + [DigitChar(n % 10)];
      assert s[..|s| - 1] == p;
      s
  }

  /** How PHP renders an int inside a string: an optional '-', then the digits. */
  function IntToString(n: int): (s: string)
    ensures s != []
  {
    if n < 0 then "-" + NatToString(-n) else NatToString(n)
  }

  lemma {:induction false} LeadingDigitsOfDigits(s: string)
    requires AllDigits(s)
    ensures LeadingDigits(s) == s
  {
    if s != [] {
      LeadingDigitsOfDigits(s[1..]);
    }
  }

  /** A string without any digit is worth 0 to intval(), whatever its sign. */
  lemma {:induction false} IntValNoDigits(s: string)
    requires forall i :: 0 <= i < |s| ==> !IsDigit(s[i])
    ensures IntVal(s) == 0
  {
    var t := SkipNumericSpace(s);
    if |t| > 1 {
      assert t[1..][0] == s[|s| - |t| + 1];
    }
    if t != [] {
      assert t[0] == s[|s| - |t|];
    }
  }

  /** Rendering an int and reading it back with intval() gives the int. */
  lemma {:induction false} IntValRoundTrip(n: int)
    ensures IntVal(IntToString(n)) == n
  {
    if n < 0 {
      IntValOfNegative(NatToString(-n));
    } else {
      IntValOfDigits(NatToString(n));
    }
  }

  /** intval() of a non-empty run of digits is its value. */
  lemma IntValOfDigits(d: string)
    requires d != [] && AllDigits(d)
    ensures IntVal(d) == DigitsValue(d)
  {
    assert IsDigit(d[0]);
    assert SkipNumericSpace(d) == d;
    LeadingDigitsOfDigits(d);
  }

  /** intval() of '-' and a run of digits is minus its value. */
  lemma IntValOfNegative(d: string)
    requires AllDigits(d)
    ensures IntVal("-" + d) == -(DigitsValue(d) as int)
  {
    var s := "-" + d;
    assert s[0] == '-' && s[1..] == d;
    assert SkipNumericSpace(s) == s;
    LeadingDigitsOfDigits(d);
  }

  // ---------------------------------------------------------------------
  // implode() and explode()
  // ---------------------------------------------------------------------

  /** implode(sep, items) */
  function Join(sep: string, items: seq<string>): string
  {
    if items == [] then ""
    else if |items| == 1 then items[0]
    else items[0] + sep + Join(sep, items[1..])
  }

  /** explode(sep, s) for a one-character separator; the empty string gives [""]. */
  function Split(s: string, sep: char): (parts: seq<string>)
    ensures |parts| >= 1
    ensures forall i :: 0 <= i < |parts| ==> sep !in parts[i]
  {
    if s == [] then [""]
    else
      var rest := Split(s[1..], sep);
      if s[0] == sep then [""] + rest
      else [[s[0]] + rest[0]] + rest[1..]
  }

  lemma {:induction false} SplitWithout(a: string, sep: char)
    requires sep !in a
    ensures Split(a, sep) == [a]
  {
    if a != [] {
      SplitWithout(a[1..], sep);
      assert [a[0]] + a[1..] == a;
    }
  }

  lemma {:induction false} SplitAfter(a: string, sep: char, b: string)
    requires sep !in a
    ensures Split(a + [sep] + b, sep) == [a] + Split(b, sep)
  {
    if a == [] {
      assert a + [sep] + b == [sep] + b;
      assert ([sep] + b)[1..] == b;
    } else {
      assert (a + [sep] + b)[1..] == a[1..] + [sep] + b;
      SplitAfter(a[1..], sep, b);
      assert [a[0]] + a[1..] == a;
    }
  }

  /** explode undoes implode when no item contains the separator. */
  lemma {:induction false} SplitJoin(items: seq<string>, sep: char)
    requires items != []
    requires forall i :: 0 <= i < |items| ==> sep !in items[i]
    ensures Split(Join([sep], items), sep) == items
  {
    if |items| == 1 {
      SplitWithout(items[0], sep);
    } else {
      SplitJoin(items[1..], sep);
      SplitAfter(items[0], sep, Join([sep], items[1..]));
      assert [items[0]] + items[1..] == items;
    }
  }

  /** implode undoes explode, for every string. */
  lemma {:induction false} JoinSplit(s: string, sep: char)
    ensures Join([sep], Split(s, sep)) == s
  {
    if s != [] {
      var rest := Split(s[1..], sep);
      JoinSplit(s[1..], sep);
      if s[0] == sep {
        assert ([""] + rest)[1..] == rest;
        assert s == [sep] + s[1..];
      } else {
        var parts := [[s[0]] + rest[0]] + rest[1..];
        if |rest| == 1 {
          assert s == [s[0]] + rest[0];
        } else {
          assert parts[1..] == rest[1..];
          assert Join([sep], rest) == rest[0] + [sep] + Join([sep], rest[1..]);
          assert s == [s[0]] + s[1..];
        }
      }
    }
  }

  /** Splits at the first occurrence of `c`: the part before it and the part after it. */
  function SplitAtFirst(s: string, c: char): (r: (string, string))
    ensures c !in r.0
  {
    if s == [] then ([], [])
    else if s[0] == c then ([], s[1..])
    else
      var (a, b) := SplitAtFirst(s[1..], c);
      ([s[0]] + a, b)
  }

  lemma {:induction false} SplitAtFirstOf(a: string, c: char, b: string)
    requires c !in a
    ensures SplitAtFirst(a + [c] + b, c) == (a, b)
  {
    if a == [] {
      assert a + [c] + b == [c] + b;
      assert ([c] + b)[1..] == b;
    } else {
      assert (a + [c] + b)[1..] == a[1..] + [c] + b;
      SplitAtFirstOf(a[1..], c, b);
      assert [a[0]] + a[1..] == a;
    }
  }
}
