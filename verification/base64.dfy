/** The browser's `btoa` and `atob`, on which the client's message "encryption" rests.
    `btoa` encodes a string whose characters are all at most U+00FF, read as bytes, with the
    alphabet and `=` padding of section 4 of RFC 4648, and throws otherwise. `atob` is the
    forgiving-base64 decode of the WHATWG Infra Standard (section 4.7): ASCII white space is
    dropped, one or two final `=` are dropped when the length is a multiple of four, a
    length of one more than a multiple of four fails, any character outside the alphabet
    fails, and bits left over at the end are discarded. A thrown exception is `None`.

    Both directions go through six-bit values: bytes to values to characters, and back. */
module Base64 {
  import opened Common

  type Byte = x: int | 0 <= x < 256
  type Sextet = x: int | 0 <= x < 64

  /** The character that encodes a six-bit value, as Table 1 of RFC 4648 lists them:
      `A`-`Z` for 0-25, `a`-`z` for 26-51, `0`-`9` for 52-61, `+` for 62 and `/` for 63. */
  function CharOf(v: Sextet): (c: char)
    ensures c != '='
  {
    if v < 26 then ('A' as int + v) as char
    else if v < 52 then ('a' as int + (v - 26)) as char
    else if v < 62 then ('0' as int + (v - 52)) as char
    else if v == 62 then '+' else '/'
  }

  /** The six-bit value a character encodes, if it is in the alphabet. */
  function ValueOf(c: char): (r: Option<Sextet>)
    ensures r.Some? ==> CharOf(r.value) == c
  {
    if 'A' <= c <= 'Z' then Some(c as int - 'A' as int)
    else if 'a' <= c <= 'z' then Some(c as int - 'a' as int + 26)
    else if '0' <= c <= '9' then Some(c as int - '0' as int + 52)
    else if c == '+' then Some(62)
    else if c == '/' then Some(63)
    else None
  }

  /** Every value has exactly one character, and reading it gives the value back. */
  lemma ValueOfCharOf(v: Sextet)
    ensures ValueOf(CharOf(v)) == Some(v)
  {
  }

  predicate InAlphabet(s: string) {
    forall i :: 0 <= i < |s| ==> ValueOf(s[i]).Some?
  }

  /** The six-bit values of bytes, high bits first: four for each group of three bytes, and
      two or three for a final group of one or two, whose spare low bits are zero. */
  function SextetsOf(b: seq<Byte>): (v: seq<Sextet>)
    ensures |v| == (4 * |b| + 2) / 3
  {
    if |b| == 0 then []
    else if |b| == 1 then [b[0] / 4, b[0] % 4 * 16]
    else if |b| == 2 then [b[0] / 4, b[0] % 4 * 16 + b[1] / 16, b[1] % 16 * 4]
    else [b[0] / 4, b[0] % 4 * 16 + b[1] / 16, b[1] % 16 * 4 + b[2] / 64, b[2] % 64] + SextetsOf(b[3..])
  }

  /** The bytes six-bit values carry: three for each group of four, and one or two for a final
      group of two or three, whose spare low bits are ignored. */
  function BytesOf(v: seq<Sextet>): (b: seq<Byte>)
    requires |v| % 4 != 1
    ensures |b| == 3 * |v| / 4
  {
    if |v| == 0 then []
    else
      var b0: Byte := v[0] as int * 4 + v[1] / 16;
      if |v| == 2 then [b0]
      else
        var b1: Byte := v[1] as int % 16 * 16 + v[2] / 4;
        if |v| == 3 then [b0, b1]
        else
          var b2: Byte := v[2] as int % 4 * 64 + v[3];
          [b0, b1, b2] + BytesOf(v[4..])
  }

  function CharsOf(v: seq<Sextet>): (s: string)
    ensures |s| == |v| && InAlphabet(s)
    ensures forall i :: 0 <= i < |v| ==> s[i] == CharOf(v[i])
  {
    seq(|v|, i requires 0 <= i < |v| => CharOf(v[i]))
  }

  function ValuesOf(s: string): (v: seq<Sextet>)
    requires InAlphabet(s)
    ensures |v| == |s|
    ensures forall i :: 0 <= i < |s| ==> v[i] == ValueOf(s[i]).value
  {
    seq(|s|, i requires 0 <= i < |s| => ValueOf(s[i]).value)
  }

  lemma ValuesOfCharsOf(v: seq<Sextet>)
    ensures ValuesOf(CharsOf(v)) == v
  {
    forall i | 0 <= i < |v| ensures ValuesOf(CharsOf(v))[i] == v[i] {
      ValueOfCharOf(v[i]);
    }
  }

  /** Bytes survive the trip through six-bit values. */
  lemma {:induction false} BytesOfSextetsOf(b: seq<Byte>)
    ensures |SextetsOf(b)| % 4 != 1
    ensures BytesOf(SextetsOf(b)) == b
  {
    if |b| >= 3 {
      var v := SextetsOf(b);
      BytesOfSextetsOf(b[3..]);
      assert v[4..] == SextetsOf(b[3..]);
      assert b == [b[0], b[1], b[2]] + b[3..];
    }
  }

  /** The encoding without its padding. */
  function Unpadded(b: seq<Byte>): (r: string)
    ensures |r| == (4 * |b| + 2) / 3 && InAlphabet(r)
  {
    CharsOf(SextetsOf(b))
  }

  /** The `=` characters that bring the encoding to a multiple of four. */
  function Padding(n: nat): string {
    if n % 3 == 1 then "==" else if n % 3 == 2 then "=" else ""
  }

  /** The padded encoding: four characters for every started group of three bytes, all from
      the alphabet except the padding at the end. */
  function Encode(b: seq<Byte>): (r: string)
    ensures |r| == 4 * ((|b| + 2) / 3)
    ensures forall i :: 0 <= i < |r| ==> ValueOf(r[i]).Some? || (r[i] == '=' && i >= |r| - 2)
  {
    Unpadded(b) + Padding(|b|)
  }

  /** Characters read as bytes, when every one of them is at most U+00FF. */
  predicate IsLatin1(s: string) {
    forall i :: 0 <= i < |s| ==> s[i] as int < 256
  }

  function ToBytes(s: string): (b: seq<Byte>)
    requires IsLatin1(s)
    ensures |b| == |s| && forall i :: 0 <= i < |s| ==> b[i] == s[i] as int
  {
    seq(|s|, i requires 0 <= i < |s| => s[i] as int as Byte)
  }

  function FromBytes(b: seq<Byte>): (s: string)
    ensures |s| == |b| && IsLatin1(s)
    ensures forall i :: 0 <= i < |b| ==> s[i] as int == b[i]
  {
    seq(|b|, i requires 0 <= i < |b| => b[i] as char)
  }

  lemma BytesRoundTrip(s: string)
    requires IsLatin1(s)
    ensures FromBytes(ToBytes(s)) == s
  {
  }

  /** `btoa`: the encoding of the string's bytes, or a thrown `InvalidCharacterError` when a
      character lies above U+00FF. */
  function Btoa(s: string): (r: Option<string>)
    ensures r.Some? <==> IsLatin1(s)
    ensures r.Some? ==> |r.value| == 4 * ((|s| + 2) / 3)
  {
    if IsLatin1(s) then Some(Encode(ToBytes(s))) else None
  }

  const LineFeed: char := '\n'

  /** The ASCII white space the decode ignores: tab, line feed, form feed, carriage return
      and space. */
  predicate IsAsciiWhitespace(c: char) {
    c == '\t' || c == LineFeed || c == '\U{000C}' || c == '\r' || c == ' '
  }

  function RemoveWhitespace(s: string): (r: string)
    ensures |r| <= |s|
    ensures forall i :: 0 <= i < |r| ==> !IsAsciiWhitespace(r[i])
    ensures (forall i :: 0 <= i < |s| ==> !IsAsciiWhitespace(s[i])) ==> r == s
    ensures forall c :: c in r ==> c in s
  {
    if s == [] then []
    else if IsAsciiWhitespace(s[0]) then RemoveWhitespace(s[1..])
    else [s[0]] + RemoveWhitespace(s[1..])
  }

  /** With a length that is a multiple of four, one or two final `=` are dropped. */
  function StripPadding(d: string): (r: string)
    ensures r <= d && |d| - 2 <= |r|
  {
    if |d| % 4 != 0 then d
    else if |d| >= 2 && d[|d| - 2..] == "==" then d[..|d| - 2]
    else if |d| >= 1 && d[|d| - 1] == '=' then d[..|d| - 1]
    else d
  }

  /** What is left after removing white space and padding can be decoded: every character
      is in the alphabet, and the count is not one more than a multiple of four. */
  predicate Decodable(d: string) {
    |d| % 4 != 1 && InAlphabet(d)
  }

  /** The bytes the forgiving decode yields, or `None` where it fails. */
  function Decode(s: string): (r: Option<seq<Byte>>)
    ensures r.Some? <==> Decodable(StripPadding(RemoveWhitespace(s)))
  {
    var d := StripPadding(RemoveWhitespace(s));
    if |d| % 4 == 1 || !InAlphabet(d) then None else Some(BytesOf(ValuesOf(d)))
  }

  /** `atob`: the decoded bytes as a string of characters up to U+00FF, or a thrown
      `InvalidCharacterError`. */
  function Atob(s: string): (r: Option<string>)
    ensures r.Some? ==> IsLatin1(r.value)
    ensures r.None? <==> Decode(s).None?
  {
    match Decode(s)
    case None => None
    case Some(b) => Some(FromBytes(b))
  }

  lemma EncodeHasNoWhitespace(b: seq<Byte>)
    ensures RemoveWhitespace(Encode(b)) == Encode(b)
  {
    var e := Encode(b);
    forall i | 0 <= i < |e| ensures !IsAsciiWhitespace(e[i]) {
    }
  }

  lemma StripTwo(u: string)
    requires |u| % 4 == 2
    ensures StripPadding(u + "==") == u
  {
    var e := u + "==";
    assert e[|e| - 2..] == "==";
    assert e[..|e| - 2] == u;
  }

  lemma StripOne(u: string)
    requires |u| % 4 == 3 && u[|u| - 1] != '='
    ensures StripPadding(u + "=") == u
  {
    var e := u + "=";
    assert e[|e| - 2] == u[|u| - 1];
    assert e[|e| - 2..] != "==";
    assert e[..|e| - 1] == u;
  }

  lemma StripNone(u: string)
    requires |u| % 4 == 0 && InAlphabet(u)
    ensures StripPadding(u) == u
  {
    if |u| > 0 {
      assert ValueOf(u[|u| - 1]).Some?;
      assert u[|u| - 2..][1] == u[|u| - 1];
    }
  }

  /** The unpadded length of n bytes, modulo four, follows n modulo three. */
  lemma UnpaddedLength(n: nat)
    ensures n % 3 == 0 ==> ((4 * n + 2) / 3) % 4 == 0
    ensures n % 3 == 1 ==> ((4 * n + 2) / 3) % 4 == 2
    ensures n % 3 == 2 ==> ((4 * n + 2) / 3) % 4 == 3
  {
    var k := n / 3;
    assert 4 * n + 2 == 3 * (4 * k) + (4 * (n % 3) + 2);
    assert (4 * n + 2) / 3 == 4 * k + (4 * (n % 3) + 2) / 3;
  }

  /** The forgiving decode strips exactly the padding the encoder added. */
  lemma StripEncoded(b: seq<Byte>)
    ensures StripPadding(RemoveWhitespace(Encode(b))) == Unpadded(b)
  {
    EncodeHasNoWhitespace(b);
    var u := Unpadded(b);
    UnpaddedLength(|b|);
    if |b| % 3 == 1 {
      assert Encode(b) == u + "==";
      StripTwo(u);
    } else if |b| % 3 == 2 {
      assert Encode(b) == u + "=";
      assert ValueOf(u[|u| - 1]).Some?;
      StripOne(u);
    } else {
      assert Encode(b) == u;
      StripNone(u);
    }
  }

  /** Decoding an encoding gives the bytes back. */
  lemma DecodeEncode(b: seq<Byte>)
    ensures Decode(Encode(b)) == Some(b)
  {
    StripEncoded(b);
    BytesOfSextetsOf(b);
    ValuesOfCharsOf(SextetsOf(b));
  }

  /** `atob(btoa(s)) == s` for every string `btoa` accepts. */
  lemma AtobBtoa(s: string)
    requires IsLatin1(s)
    ensures Atob(Btoa(s).value) == Some(s)
  {
    DecodeEncode(ToBytes(s));
    BytesRoundTrip(s);
  }

  /** Reading the characters `atob` returns back as bytes gives the decoded bytes, and the
      empty string decodes to no bytes. */
  lemma AtobBytes(s: string)
    ensures Atob(s).Some? ==> Decode(s) == Some(ToBytes(Atob(s).value))
    ensures s == [] ==> Decode(s) == Some([])
  {
    if Atob(s).Some? {
      var b := Decode(s).value;
      assert ToBytes(FromBytes(b)) == b;
    }
    if s == [] {
      assert RemoveWhitespace(s) == [];
    }
  }
}
