/** String operations the JavaScript sources rely on: `String.prototype.trim` and the
    regular-expression class `\s` (both use the ECMAScript WhiteSpace and LineTerminator
    sets), `split` on a one-character separator, `join`, and ASCII case mapping.
    Strings are sequences of Unicode scalar values. */
module Text {
  import opened Common

  /** ECMAScript white space and line terminators: the characters `trim` removes and the
      regular-expression class `\s` matches. */
  predicate IsJsSpace(c: char) {
    var n := c as int;
    || 0x09 <= n <= 0x0D || n == 0x20 || n == 0xA0 || n == 0x1680
    || 0x2000 <= n <= 0x200A || n == 0x2028 || n == 0x2029 || n == 0x202F
    || n == 0x205F || n == 0x3000 || n == 0xFEFF
  }

  predicate NoSpace(s: string) {
    forall i :: 0 <= i < |s| ==> !IsJsSpace(s[i])
  }

  predicate IsAsciiDigit(c: char) {
    '0' <= c <= '9'
  }

  /** Number of white-space characters at the start of `s`. */
  function LeadingSpaces(s: string): (k: nat)
    ensures k <= |s|
    ensures forall i :: 0 <= i < k ==> IsJsSpace(s[i])
    ensures k < |s| ==> !IsJsSpace(s[k])
  {
    if |s| > 0 && IsJsSpace(s[0]) then 1 + LeadingSpaces(s[1..]) else 0
  }

  /** Number of white-space characters at the end of `s`. */
  function TrailingSpaces(s: string): (k: nat)
    ensures k <= |s|
    ensures forall i :: |s| - k <= i < |s| ==> IsJsSpace(s[i])
    ensures k < |s| ==> !IsJsSpace(s[|s| - 1 - k])
  {
    if |s| > 0 && IsJsSpace(s[|s| - 1]) then 1 + TrailingSpaces(s[..|s| - 1]) else 0
  }

  /** `s.trim()`: the slice of `s` left after removing white space at both ends. */
  function Trim(s: string): (r: string)
    ensures |r| <= |s|
    ensures |r| > 0 ==> !IsJsSpace(r[0]) && !IsJsSpace(r[|r| - 1])
    ensures LeadingSpaces(s) + |r| <= |s|
    ensures r == s[LeadingSpaces(s)..LeadingSpaces(s) + |r|]
    ensures forall i :: LeadingSpaces(s) + |r| <= i < |s| ==> IsJsSpace(s[i])
  {
    var a := LeadingSpaces(s);
    var t := s[a..];
    var b := |t| - TrailingSpaces(t);
    assert t[..b] == s[a..a + b];
    assert forall i :: a + b <= i < |s| ==> s[i] == t[i - a];
    t[..b]
  }

  lemma TrimNoSpaceAtEnds(s: string)
    requires |s| > 0 ==> !IsJsSpace(s[0]) && !IsJsSpace(s[|s| - 1])
    ensures Trim(s) == s
  {
  }

  lemma TrimIdempotent(s: string)
    ensures Trim(Trim(s)) == Trim(s)
  {
    TrimNoSpaceAtEnds(Trim(s));
  }

  function ToLowerChar(c: char): char {
    if 'A' <= c <= 'Z' then (c as int + 32) as char else c
  }

  function ToUpperChar(c: char): char {
    if 'a' <= c <= 'z' then (c as int - 32) as char else c
  }

  /** `toLowerCase` restricted to the ASCII letters. */
  function ToLower(s: string): (r: string)
    ensures |r| == |s|
    ensures forall i :: 0 <= i < |s| ==> r[i] == ToLowerChar(s[i])
  {
    if |s| == 0 then [] else [ToLowerChar(s[0])] + ToLower(s[1..])
  }

  /** `toUpperCase` restricted to the ASCII letters. */
  function ToUpper(s: string): (r: string)
    ensures |r| == |s|
    ensures forall i :: 0 <= i < |s| ==> r[i] == ToUpperChar(s[i])
  {
    if |s| == 0 then [] else [ToUpperChar(s[0])] + ToUpper(s[1..])
  }

  /** `parts.join(sep)`. */
  function Join(parts: seq<string>, sep: string): string {
    if |parts| == 0 then ""
    else if |parts| == 1 then parts[0]
    else parts[0] + sep + Join(parts[1..], sep)
  }

  /** `s.split(sep)` for a one-character separator: the text between consecutive
      separators, so there is always one more field than separators. */
  function Split(s: string, sep: char): (r: seq<string>)
    ensures |r| >= 1
    ensures forall i :: 0 <= i < |r| ==> sep !in r[i]
    ensures Join(r, [sep]) == s
    decreases |s|
  {
    match FindFirst(s, (c: char) => c == sep)
    case None =>
      assert sep !in s by {
        forall i | 0 <= i < |s| ensures s[i] != sep { }
      }
      [s]
    case Some(i) =>
      var rest := Split(s[i + 1..], sep);
      assert sep !in s[..i] by {
        forall j | 0 <= j < i ensures s[..i][j] != sep { }
      }
      assert s == s[..i] + [sep] + s[i + 1..];
      [s[..i]] + rest
  }

  /** Numbers of the separator in `s`. */
  function CountChar(s: string, c: char): nat {
    if |s| == 0 then 0 else (if s[0] == c then 1 else 0) + CountChar(s[1..], c)
  }

  lemma {:induction false} SplitFieldCount(s: string, sep: char)
    ensures |Split(s, sep)| == CountChar(s, sep) + 1
    decreases |s|
  {
    match FindFirst(s, (c: char) => c == sep)
    case None =>
      NoOccurrenceCountsZero(s, sep);
    case Some(i) =>
      SplitFieldCount(s[i + 1..], sep);
      assert s == s[..i] + ([sep] + s[i + 1..]);
      CountAppend(s[..i], [sep] + s[i + 1..], sep);
      assert ([sep] + s[i + 1..])[1..] == s[i + 1..];
      NoOccurrenceCountsZero(s[..i], sep);
  }

  lemma {:induction false} NoOccurrenceCountsZero(s: string, c: char)
    requires forall j :: 0 <= j < |s| ==> s[j] != c
    ensures CountChar(s, c) == 0
  {
    if |s| > 0 {
      NoOccurrenceCountsZero(s[1..], c);
    }
  }

  lemma {:induction false} CountPositiveIffPresent(s: string, c: char)
    ensures CountChar(s, c) > 0 <==> c in s
  {
    if |s| > 0 {
      CountPositiveIffPresent(s[1..], c);
      assert s == [s[0]] + s[1..];
    }
  }

  lemma {:induction false} CountAppend(a: string, b: string, c: char)
    ensures CountChar(a + b, c) == CountChar(a, c) + CountChar(b, c)
  {
    if |a| == 0 {
      assert a + b == b;
    } else {
      CountAppend(a[1..], b, c);
      assert (a + b)[1..] == a[1..] + b;
    }
  }

  /** `s.startsWith(prefix)`. */
  predicate StartsWith(s: string, prefix: string) {
    |prefix| <= |s| && s[..|prefix|] == prefix
  }

  lemma StartsWithConcat(prefix: string, rest: string)
    ensures StartsWith(prefix + rest, prefix)
  {
    assert (prefix + rest)[..|prefix|] == prefix;
  }

  /** Splitting at the first separator: the text before it is the first field, and the rest
      is split in turn. */
  lemma SplitAtFirst(a: string, b: string, sep: char)
    requires sep !in a
    ensures Split(a + [sep] + b, sep) == [a] + Split(b, sep)
  {
    var s := a + [sep] + b;
    var k := FindFirst(s, (c: char) => c == sep);
    assert s[|a|] == sep;
    assert forall j :: 0 <= j < |a| ==> s[j] == a[j];
    assert k == Some(|a|);
    assert s[..|a|] == a && s[|a| + 1..] == b;
  }

  /** A string without the separator is a single field. */
  lemma SplitWithoutSeparator(s: string, sep: char)
    requires sep !in s
    ensures Split(s, sep) == [s]
  {
    assert FindFirst(s, (c: char) => c == sep).None?;
  }

  /** The value of an ASCII digit in base 10 or 16 (either letter case), if it is one. */
  function DigitValue(c: char, radix: nat): (r: Option<nat>)
    ensures r.Some? ==> r.value < radix
    ensures radix == 10 ==> (r.Some? <==> IsAsciiDigit(c))
  {
    if '0' <= c <= '9' && (c as int - '0' as int) < radix then Some(c as int - '0' as int)
    else if radix == 16 && 'a' <= c <= 'f' then Some(c as int - 'a' as int + 10)
    else if radix == 16 && 'A' <= c <= 'F' then Some(c as int - 'A' as int + 10)
    else None
  }

  /** How many characters at the start of `s` are digits in `radix`. */
  function DigitRun(s: string, radix: nat): (k: nat)
    ensures k <= |s|
    ensures forall i :: 0 <= i < k ==> DigitValue(s[i], radix).Some?
    ensures k < |s| ==> DigitValue(s[k], radix).None?
  {
    if |s| > 0 && DigitValue(s[0], radix).Some? then 1 + DigitRun(s[1..], radix) else 0
  }

  /** The number a run of digits spells, most significant first. */
  function DigitsValue(d: string, radix: nat): (v: nat)
    requires forall i :: 0 <= i < |d| ==> DigitValue(d[i], radix).Some?
  {
    if |d| == 0 then 0
    else Place(DigitsValue(d[..|d| - 1], radix), radix, DigitValue(d[|d| - 1], radix).value)
  }

  /** One more digit after a value already read. */
  function Place(v: nat, radix: nat, digit: nat): nat {
    v * radix + digit
  }

  /** The global `parseInt(s)` without a radix argument: leading white space and one sign are
      skipped, a `0x` or `0X` prefix selects base 16, and the longest run of digits that
      follows is the value; with no digit at all the result is `NaN`, here `None`. */
  function ParseInt(s: string): (r: Option<int>)
    ensures r.Some? ==> exists k :: 0 <= k < |s| && IsAsciiDigit(s[k])
  {
    var t := s[LeadingSpaces(s)..];
    var negative := |t| > 0 && t[0] == '-';
    var u := if |t| > 0 && (t[0] == '-' || t[0] == '+') then t[1..] else t;
    var hex := |u| >= 2 && u[0] == '0' && (u[1] == 'x' || u[1] == 'X');
    var radix := if hex then 16 else 10;
    var w := if hex then u[2..] else u;
    var k := DigitRun(w, radix);
    if k == 0 then None
    else
      var n: int := DigitsValue(w[..k], radix);
      assert |s| - |w| < |s| && (IsAsciiDigit(w[0]) || hex);
      assert hex ==> IsAsciiDigit(s[|s| - |w| - 2]);
      assert !hex ==> IsAsciiDigit(s[|s| - |w|]);
      Some(if negative then -n else n)
  }

  /** The decimal numeral of `n`, as `String(n)` writes it: no sign, no leading zero. */
  function Decimal(n: nat): (r: string)
    ensures |r| >= 1
    ensures forall i :: 0 <= i < |r| ==> IsAsciiDigit(r[i])
    ensures |r| > 1 ==> r[0] != '0'
  {
    var d := [('0' as int + n % 10) as char];
    if n < 10 then d else Decimal(n / 10) + d
  }

  /** `parseInt` reads back a decimal numeral, and stops at the first character after it
      that is not a digit (an `x` right after a lone `0` would make it hexadecimal). */
  lemma {:induction false} ParseIntDecimal(n: nat, rest: string)
    requires |rest| > 0 ==> !IsAsciiDigit(rest[0]) && rest[0] != 'x' && rest[0] != 'X'
    ensures ParseInt(Decimal(n) + rest) == Some(n)
  {
    var s := Decimal(n) + rest;
    assert LeadingSpaces(s) == 0 by {
      assert !IsJsSpace(s[0]);
    }
    assert s[0..] == s;
    assert !(|s| >= 2 && s[0] == '0' && (s[1] == 'x' || s[1] == 'X')) by {
      if |Decimal(n)| == 1 {
        if |rest| > 0 { assert s[1] == rest[0]; }
      } else {
        assert s[0] == Decimal(n)[0];
      }
    }
    DigitRunOfDecimal(n, rest);
    assert s[..|Decimal(n)|] == Decimal(n);
    DecimalValue(n);
  }

  lemma {:induction false} DigitRunOfDecimal(n: nat, rest: string)
    requires |rest| > 0 ==> !IsAsciiDigit(rest[0])
    ensures DigitRun(Decimal(n) + rest, 10) == |Decimal(n)|
  {
    DigitRunPrefix(Decimal(n), rest);
  }

  lemma {:induction false} DigitRunPrefix(d: string, rest: string)
    requires forall i :: 0 <= i < |d| ==> IsAsciiDigit(d[i])
    requires |rest| > 0 ==> !IsAsciiDigit(rest[0])
    ensures DigitRun(d + rest, 10) == |d|
  {
    if |d| > 0 {
      assert (d + rest)[0] == d[0];
      assert (d + rest)[1..] == d[1..] + rest;
      DigitRunPrefix(d[1..], rest);
    } else {
      assert d + rest == rest;
    }
  }

  lemma {:induction false} DecimalValue(n: nat)
    ensures DigitsValue(Decimal(n), 10) == n
  {
    var d := Decimal(n);
    if n >= 10 {
      DecimalValue(n / 10);
      assert d[..|d| - 1] == Decimal(n / 10);
    }
  }
}
