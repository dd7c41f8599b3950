/** Worked examples of the browser's forgiving `atob`: the text "hi" and the inputs that
    decode to it, and two that make it throw. */
module Base64Examples {
  import opened Common
  import opened Base64

  lemma DecodeHi(d: string)
    requires d == "aGk" || d == "aGl"
    ensures InAlphabet(d) && BytesOf(ValuesOf(d)) == [104, 105]
  {
    assert ValueOf('a') == Some(26) && ValueOf('G') == Some(6);
    assert ValueOf('k') == Some(36) && ValueOf('l') == Some(37);
    assert ValuesOf(d) == [26, 6, ValueOf(d[2]).value];
  }

  lemma HiText()
    ensures FromBytes([104, 105]) == "hi"
  {
  }

  /** Whatever leaves `aGk` or `aGl` once white space and padding are gone decodes to "hi". */
  lemma AtobHi(s: string)
    requires StripPadding(RemoveWhitespace(s)) == "aGk" || StripPadding(RemoveWhitespace(s)) == "aGl"
    ensures Atob(s) == Some("hi")
  {
    DecodeHi(StripPadding(RemoveWhitespace(s)));
    HiText();
  }

  /** The decode is forgiving: the padding may be left off, and white space anywhere is
      ignored. */
  lemma AtobForgivesPadding()
    ensures Atob("aGk=") == Some("hi")
    ensures Atob("aGk") == Some("hi")
  {
    assert RemoveWhitespace("aGk=") == "aGk=";
    assert StripPadding("aGk=") == "aGk";
    AtobHi("aGk=");
    assert RemoveWhitespace("aGk") == "aGk";
    AtobHi("aGk");
  }

  lemma AtobForgivesWhitespace()
    ensures Atob("aG k=" + [LineFeed]) == Atob("aGk=")
  {
    var s := "aG k=" + [LineFeed];
    assert RemoveWhitespace(s[5..]) == [] by {
      assert s[5..] == [LineFeed];
    }
    assert RemoveWhitespace(s[4..]) == "=" by {
      assert s[4..] == ['='] + s[5..];
    }
    assert RemoveWhitespace(s[2..]) == "k=" by {
      assert s[3..] == ['k'] + s[4..];
      assert s[2..] == [' '] + s[3..];
    }
    assert s == ['a', 'G'] + s[2..];
    assert RemoveWhitespace(s) == "aGk=";
    assert RemoveWhitespace("aGk=") == "aGk=";
  }

  /** The spare low bits of the last character are not checked, so two different inputs
      decode to the same text. */
  lemma AtobIgnoresSpareBits()
    ensures Atob("aGl=") == Atob("aGk=") == Some("hi")
  {
    assert RemoveWhitespace("aGl=") == "aGl=";
    assert StripPadding("aGl=") == "aGl";
    AtobHi("aGl=");
    AtobForgivesPadding();
  }

  /** A length of one more than a multiple of four, and a character outside the alphabet,
      each make the decode throw. */
  lemma AtobRejects()
    ensures Atob("a").None? && Atob("aGk*").None?
  {
    assert RemoveWhitespace("a") == "a";
    assert RemoveWhitespace("aGk*") == "aGk*";
    assert ValueOf("aGk*"[3]).None?;
  }
}
