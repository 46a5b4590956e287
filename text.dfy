/**
 * The string operations of Go's standard library that the bot depends on:
 * strings.HasPrefix, strings.Contains, strings.Split, fmt's %d formatting,
 * strconv.Atoi, fmt.Sscanf with "%d", and the order in which the database
 * sorts text columns.
 */
module Text {
  import opened Wrappers

  const Int64Min: int := -0x8000_0000_0000_0000
  const Int64Max: int := 0x7FFF_FFFF_FFFF_FFFF

  /** Go's `int` on the 64-bit platforms the bot runs on. */
  predicate InInt64(n: int) { Int64Min <= n <= Int64Max }

  /** strings.HasPrefix */
  predicate HasPrefix(s: string, prefix: string) {
    |prefix| <= |s| && s[..|prefix|] == prefix
  }

  /** A string starts with every prefix it was built from, and with nothing longer than itself. */
  lemma HasPrefixAppend(p: string, q: string)
    ensures HasPrefix(p + q, p)
    ensures forall r :: |r| > |p| ==> !HasPrefix(p, r)
  {
    assert (p + q)[..|p|] == p;
  }

  /** sub occurs in s starting at index i. */
  predicate OccursAt(s: string, sub: string, i: int) {
    0 <= i <= |s| - |sub| && s[i..i + |sub|] == sub
  }

  /** strings.Contains */
  predicate Contains(s: string, sub: string) {
    exists i | 0 <= i <= |s| :: OccursAt(s, sub, i)
  }

  /** Text found in a prefix is found in every extension of it. */
  lemma ContainsExtend(p: string, q: string, sub: string)
    requires Contains(p, sub)
    ensures Contains(p + q, sub)
  {
    var i :| 0 <= i <= |p| && OccursAt(p, sub, i);
    assert (p + q)[i..i + |sub|] == p[i..i + |sub|];
    assert OccursAt(p + q, sub, i);
  }

  // ---------------------------------------------------------------------------
  // strings.Split with a one-character separator

  /** strings.Split(s, sep): the pieces between occurrences of sep; "" gives [""]. */
  function Split(s: string, sep: char): (parts: seq<string>)
    ensures |parts| >= 1
  {
    if s == [] then [""]
    else
      var rest := Split(s[1..], sep);
      if s[0] == sep then [""] + rest else [[s[0]] + rest[0]] + rest[1..]
  }

  /** strings.Join(parts, sep), the inverse of Split. */
  function Join(parts: seq<string>, sep: char): string
    requires |parts| >= 1
  {
    if |parts| == 1 then parts[0] else parts[0] + [sep] + Join(parts[1..], sep)
  }

  /** Split cuts s into pieces that contain no separator and that Join puts back together. */
  lemma {:induction false} SplitJoin(s: string, sep: char)
    ensures Join(Split(s, sep), sep) == s
    ensures forall k :: 0 <= k < |Split(s, sep)| ==> sep !in Split(s, sep)[k]
  {
    if s != [] {
      SplitJoin(s[1..], sep);
      var rest := Split(s[1..], sep);
      if s[0] == sep {
        assert ([""] + rest)[1..] == rest;
        assert s == [sep] + s[1..];
      } else {
        var parts := [[s[0]] + rest[0]] + rest[1..];
        assert parts == Split(s, sep);
        if |rest| == 1 {
          assert Join(parts, sep) == [s[0]] + rest[0];
        } else {
          assert parts[1..] == rest[1..];
          assert Join(rest, sep) == rest[0] + [sep] + Join(rest[1..], sep);
          assert Join(parts, sep) == [s[0]] + (rest[0] + [sep] + Join(rest[1..], sep));
        }
        assert s == [s[0]] + s[1..];
        forall k | 0 <= k < |parts| ensures sep !in parts[k] {
          if k > 0 { assert parts[k] == rest[k]; }
        }
      }
    }
  }

  /** A string without the separator is one piece. */
  lemma {:induction false} SplitWithoutSep(s: string, sep: char)
    requires sep !in s
    ensures Split(s, sep) == [s]
  {
    if s != [] {
      SplitWithoutSep(s[1..], sep);
      assert [s[0]] + s[1..] == s;
    }
  }

  /** The text before the first separator is the first piece. */
  lemma {:induction false} SplitAfterFirst(a: string, b: string, sep: char)
    requires sep !in a
    ensures Split(a + [sep] + b, sep) == [a] + Split(b, sep)
  {
    if a == [] {
      assert (a + [sep] + b)[1..] == b;
    } else {
      SplitAfterFirst(a[1..], b, sep);
      assert (a + [sep] + b)[1..] == a[1..] + [sep] + b;
      assert [a[0]] + a[1..] == a;
    }
  }

  // ---------------------------------------------------------------------------
  // Decimal numbers

  predicate IsDigit(c: char) { '0' <= c <= '9' }

  predicate AllDigits(s: string) { forall i :: 0 <= i < |s| ==> IsDigit(s[i]) }

  function DigitChar(d: nat): (c: char)
    requires d < 10
    ensures IsDigit(c) && c as int - '0' as int == d
  {
    ('0' as int + d) as char
  }

  /** The value of a string of decimal digits, most significant first. */
  function DigitsValue(s: string): nat
    requires AllDigits(s)
  {
    if s == [] then 0 else 10 * DigitsValue(s[..|s| - 1]) + (s[|s| - 1] as int - '0' as int)
  }

  /** The decimal digits of n without leading zeros ("0" for zero). */
  function NatToString(n: nat): (s: string)
    ensures |s| >= 1 && AllDigits(s)
  {
    if n < 10 then [DigitChar(n)] else NatToString(n / 10) + [DigitChar(n % 10)]
  }

  /** fmt.Sprintf("%d", n). */
  function FormatInt(n: int): (s: string)
    ensures |s| >= 1 && (s[0] == '-' <==> n < 0)
    ensures AllDigits(if n < 0 then s[1..] else s)
  {
    if n < 0 then "-" + NatToString(-n) else NatToString(n)
  }

  lemma {:induction false} NatToStringValue(n: nat)
    ensures DigitsValue(NatToString(n)) == n
  {
    if n >= 10 {
      NatToStringValue(n / 10);
      var s := NatToString(n);
      assert s[..|s| - 1] == NatToString(n / 10);
    }
  }

  /** %d output never contains an underscore, so it survives a Split on '_' whole. */
  lemma FormatIntHasNoUnderscore(n: int)
    ensures '_' !in FormatInt(n)
  {
    var s := FormatInt(n);
    var d := NatToString(if n < 0 then -n else n);
    assert forall i :: 0 <= i < |d| ==> d[i] != '_';
    if n < 0 {
      assert s == "-" + d;
      assert forall i :: 0 <= i < |s| ==> s[i] != '_' by {
        forall i | 0 <= i < |s| ensures s[i] != '_' {
          if i > 0 { assert s[i] == d[i - 1]; }
        }
      }
    }
  }

  /** The length of the longest run of digits at the start of s. */
  function DigitRun(s: string): (k: nat)
    ensures k <= |s| && AllDigits(s[..k])
    ensures k < |s| ==> !IsDigit(s[k])
  {
    if s == [] || !IsDigit(s[0]) then 0
    else
      var k := DigitRun(s[1..]);
      assert s[..1 + k] == [s[0]] + s[1..][..k];
      1 + k
  }

  /** Whether s starts with a sign character, and the text after it. */
  function Unsigned(s: string): (string, bool)
  {
    if |s| > 0 && (s[0] == '-' || s[0] == '+') then (s[1..], s[0] == '-') else (s, false)
  }

  /**
   * strconv.Atoi(s): an optional sign followed by one or more digits and
   * nothing else; a value outside the 64-bit range is an error too.
   */
  function Atoi(s: string): (r: Option<int>)
    ensures r.Some? ==> InInt64(r.value)
    ensures r.Some? ==> Unsigned(s).0 != [] && AllDigits(Unsigned(s).0)
    ensures r.Some? && r.value < 0 ==> s[0] == '-'
  {
    var (body, negative) := Unsigned(s);
    if body == [] || !AllDigits(body) then None
    else
      var v: int := if negative then 0 - DigitsValue(body) else DigitsValue(body);
      if InInt64(v) then Some(v) else None
  }

  /**
   * fmt.Sscanf(s, "%d", &n): an optional sign and the digits that follow it,
   * as many as there are; whatever comes after them is not looked at. No digit
   * at all, or a value outside the 64-bit range, is an error.
   */
  function ScanInt(s: string): (r: Option<int>)
    ensures r.Some? ==> InInt64(r.value)
    ensures r.Some? ==> Unsigned(s).0 != [] && IsDigit(Unsigned(s).0[0])
    ensures r.Some? && r.value < 0 ==> s[0] == '-'
  {
    var (body, negative) := Unsigned(s);
    var k := DigitRun(body);
    if k == 0 then None
    else
      var v: int := if negative then 0 - DigitsValue(body[..k]) else DigitsValue(body[..k]);
      if InInt64(v) then Some(v) else None
  }

  lemma UnsignedFormatInt(n: int, rest: string)
    ensures Unsigned(FormatInt(n) + rest) == (NatToString(if n < 0 then -n else n) + rest, n < 0)
  {
    var d := NatToString(if n < 0 then -n else n);
    assert IsDigit(d[0]);
    if n < 0 {
      assert FormatInt(n) + rest == "-" + (d + rest);
    } else {
      assert (FormatInt(n) + rest)[0] == d[0];
    }
  }

  /** Atoi reads back what %d wrote. */
  lemma AtoiFormatInt(n: int)
    requires InInt64(n)
    ensures Atoi(FormatInt(n)) == Some(n)
  {
    UnsignedFormatInt(n, "");
    assert FormatInt(n) + "" == FormatInt(n);
    NatToStringValue(if n < 0 then -n else n);
  }

  /** Sscanf("%d") reads back what %d wrote, whatever non-digit text follows it. */
  lemma ScanIntFormatInt(n: int, rest: string)
    requires InInt64(n)
    requires rest == [] || !IsDigit(rest[0])
    ensures ScanInt(FormatInt(n) + rest) == Some(n)
  {
    var d := NatToString(if n < 0 then -n else n);
    UnsignedFormatInt(n, rest);
    var body := d + rest;
    assert DigitRun(body) == |d| by { DigitRunOfDigits(d, rest); }
    assert body[..|d|] == d;
    NatToStringValue(if n < 0 then -n else n);
  }

  lemma {:induction false} DigitRunOfDigits(d: string, rest: string)
    requires AllDigits(d)
    requires rest == [] || !IsDigit(rest[0])
    ensures DigitRun(d + rest) == |d|
  {
    if d != [] {
      DigitRunOfDigits(d[1..], rest);
      assert (d + rest)[1..] == d[1..] + rest;
    } else {
      assert d + rest == rest;
    }
  }

  // ---------------------------------------------------------------------------
  // Text order

  /**
   * Code-point lexicographic order, the order ORDER BY gives text columns
   * under the C collation.
   */
  predicate Less(a: string, b: string)
  {
    if a == [] then b != []
    else if b == [] then false
    else if a[0] != b[0] then a[0] < b[0]
    else Less(a[1..], b[1..])
  }

  lemma {:induction false} LessTrichotomy(a: string, b: string)
    ensures a == b || Less(a, b) || Less(b, a)
  {
    if a != [] && b != [] && a[0] == b[0] {
      LessTrichotomy(a[1..], b[1..]);
      if a[1..] == b[1..] {
        assert a == [a[0]] + a[1..] && b == [b[0]] + b[1..];
      }
    }
  }

  lemma {:induction false} LessAsymmetric(a: string, b: string)
    ensures !(Less(a, b) && Less(b, a))
  {
    if a != [] && b != [] && a[0] == b[0] {
      LessAsymmetric(a[1..], b[1..]);
    }
  }
}
