/** The client's message "encryption" (client/src/lib/encryption.ts). Despite the names, the
    keys are ignored: a message is encoded with `btoa` and decoded with `atob`, and either
    direction hands its input back unchanged when the browser function throws. The key
    generation wraps the browser's RSA key generator, which is a parameter here. */
module Encryption {
  import opened Common
  import Base64

  datatype KeyPair = KeyPair(publicKey: string, privateKey: string)

  const DemoKeys: KeyPair := KeyPair("demo-public-key", "demo-private-key")

  /** `generateKeyPair`: the exported public and private keys, base64-encoded, or the two fixed
      demonstration keys when the browser's generator throws (`None`). */
  function GenerateKeyPair(exported: Option<(seq<Base64.Byte>, seq<Base64.Byte>)>): (r: KeyPair)
    ensures exported.None? ==> r == DemoKeys
    ensures exported.Some? ==> |r.publicKey| % 4 == 0 && |r.privateKey| % 4 == 0
  {
    match exported
    case None => DemoKeys
    case Some(keys) =>
      QuadrupleIsMultipleOfFour((|keys.0| + 2) / 3);
      QuadrupleIsMultipleOfFour((|keys.1| + 2) / 3);
      KeyPair(Base64.Encode(keys.0), Base64.Encode(keys.1))
  }

  lemma QuadrupleIsMultipleOfFour(k: int)
    ensures (4 * k) % 4 == 0
  {
  }

  /** Generated keys are never mistaken for the fallback: an encoding's length is a multiple
      of four, and the demonstration public key's is 15. */
  lemma OnlyFailureGivesDemoKeys(exported: Option<(seq<Base64.Byte>, seq<Base64.Byte>)>)
    ensures exported.None? <==> GenerateKeyPair(exported) == DemoKeys
  {
    if exported.Some? {
      var k := GenerateKeyPair(exported);
      QuadrupleIsMultipleOfFour((|exported.value.0| + 2) / 3);
      assert |k.publicKey| % 4 == 0;
      assert |DemoKeys.publicKey| == 15;
      assert k.publicKey != DemoKeys.publicKey;
    }
  }

  /** Generated keys decode to the exported ones. */
  lemma GeneratedKeysDecode(pub: seq<Base64.Byte>, priv: seq<Base64.Byte>)
    ensures var k := GenerateKeyPair(Some((pub, priv)));
            Base64.Decode(k.publicKey) == Some(pub) && Base64.Decode(k.privateKey) == Some(priv)
  {
    Base64.DecodeEncode(pub);
    Base64.DecodeEncode(priv);
  }

  /** `encryptMessage`: the base64 encoding of the message when every character is at most
      U+00FF, and the message itself when `btoa` throws. The key plays no part. */
  function EncryptMessage(message: string, publicKey: string): (r: string)
    ensures Base64.IsLatin1(message) ==> |r| == 4 * ((|message| + 2) / 3)
    ensures !Base64.IsLatin1(message) <==> r == message && !Base64.IsLatin1(r)
  {
    match Base64.Btoa(message)
    case Some(e) =>
      assert Base64.IsLatin1(e) by {
        forall i | 0 <= i < |e| ensures e[i] as int < 256 {
          assert Base64.ValueOf(e[i]).Some? || e[i] == '=';
        }
      }
      e
    case None => message
  }

  /** `decryptMessage`: the text `atob` decodes, or the input itself when `atob` throws. */
  function DecryptMessage(encryptedMessage: string, privateKey: string): (r: string)
    ensures Base64.Atob(encryptedMessage).None? <==> r == encryptedMessage && Base64.Decode(encryptedMessage).None?
    ensures Base64.Atob(encryptedMessage).Some? ==> Base64.IsLatin1(r)
  {
    match Base64.Atob(encryptedMessage)
    case Some(t) => t
    case None => encryptedMessage
  }

  /** A character above U+00FF is neither in the alphabet nor white space, so `atob` throws
      on any string holding one. */
  lemma {:induction false} AtobRejectsWide(s: string)
    requires !Base64.IsLatin1(s)
    ensures Base64.Atob(s).None?
  {
    var i :| 0 <= i < |s| && s[i] as int >= 256;
    var w := Base64.RemoveWhitespace(s);
    WideSurvives(s, i);
    var j :| 0 <= j < |w| && w[j] == s[i];
    var d := Base64.StripPadding(w);
    if |d| % 4 != 1 {
      assert j < |d|;
      assert d[j] == w[j];
      assert Base64.ValueOf(d[j]).None?;
    }
  }

  /** White-space removal keeps every character that is not white space. */
  lemma {:induction false} WideSurvives(s: string, i: int)
    requires 0 <= i < |s| && !Base64.IsAsciiWhitespace(s[i])
    ensures exists j :: 0 <= j < |Base64.RemoveWhitespace(s)| && Base64.RemoveWhitespace(s)[j] == s[i]
  {
    var w := Base64.RemoveWhitespace(s);
    if i == 0 {
      assert w[0] == s[0];
    } else {
      WideSurvives(s[1..], i - 1);
      var t := Base64.RemoveWhitespace(s[1..]);
      var j :| 0 <= j < |t| && t[j] == s[1..][i - 1];
      if Base64.IsAsciiWhitespace(s[0]) {
        assert w[j] == s[i];
      } else {
        assert w[j + 1] == s[i];
      }
    }
  }

  /** Decrypting what was encrypted gives the message back, for EVERY message and any two keys:
      an encodable message round-trips through base64, and any other comes back from
      `btoa` unchanged and then from `atob` unchanged too. */
  lemma DecryptEncrypt(message: string, publicKey: string, privateKey: string)
    ensures DecryptMessage(EncryptMessage(message, publicKey), privateKey) == message
  {
    if Base64.IsLatin1(message) {
      Base64.AtobBtoa(message);
    } else {
      AtobRejectsWide(message);
    }
  }

  /** Both directions ignore their keys. */
  lemma KeysAreIgnored(m: string, k1: string, k2: string)
    ensures EncryptMessage(m, k1) == EncryptMessage(m, k2)
    ensures DecryptMessage(m, k1) == DecryptMessage(m, k2)
  {
  }

  /** A plain text that happens to be valid base64 is not left alone by the decrypt: "abcd"
      comes out as three characters. */
  lemma PlainTextIsGarbled(k: string)
    ensures DecryptMessage("abcd", k) != "abcd"
  {
    var s := "abcd";
    assert Base64.RemoveWhitespace(s) == s;
    assert Base64.StripPadding(s) == s;
    assert Base64.ValueOf(s[0]).Some? && Base64.ValueOf(s[1]).Some?;
    assert Base64.ValueOf(s[2]).Some? && Base64.ValueOf(s[3]).Some?;
    assert Base64.InAlphabet(s);
  }

  /** `arrayBufferToBase64`: each byte becomes the character with that code, and `btoa` of the
      result never throws. */
  method ArrayBufferToBase64(buffer: seq<Base64.Byte>) returns (r: string)
    ensures |r| == 4 * ((|buffer| + 2) / 3)
    ensures Base64.Decode(r) == Some(buffer)
  {
    var binary := "";
    var i := 0;
    while i < |buffer|
      invariant 0 <= i <= |buffer|
      invariant binary == Base64.FromBytes(buffer[..i])
    {
      binary := binary + [buffer[i] as char];
      i := i + 1;
    }
    assert buffer[..i] == buffer;
    assert Base64.ToBytes(binary) == buffer;
    var e := Base64.Btoa(binary);
    r := e.value;
    Base64.DecodeEncode(buffer);
  }

  /** The loop of `base64ToArrayBuffer` that copies each character code into the buffer. */
  method CharCodes(text: string) returns (bytes: seq<Base64.Byte>)
    requires Base64.IsLatin1(text)
    ensures bytes == Base64.ToBytes(text)
  {
    bytes := [];
    var i := 0;
    while i < |text|
      invariant 0 <= i <= |text|
      invariant |bytes| == i
      invariant forall k :: 0 <= k < i ==> bytes[k] == text[k] as int
    {
      bytes := bytes + [text[i] as int];
      i := i + 1;
    }
  }

  /** `base64ToArrayBuffer`: the character codes of what `atob` decodes; it does not catch, so
      a string `atob` refuses makes it throw (`None`). */
  method Base64ToArrayBuffer(base64: string) returns (r: Option<seq<Base64.Byte>>)
    ensures r == Base64.Decode(base64)
    ensures r.Some? ==> |base64| > 0 || r.value == []
  {
    var binary := Base64.Atob(base64);
    if binary.None? {
      return None;
    }
    var bytes := CharCodes(binary.value);
    Base64.AtobBytes(base64);
    r := Some(bytes);
  }

  /** A buffer survives the trip to base64 and back. */
  method BufferRoundTrip(buffer: seq<Base64.Byte>) returns (back: Option<seq<Base64.Byte>>)
    ensures back == Some(buffer)
  {
    var s := ArrayBufferToBase64(buffer);
    back := Base64ToArrayBuffer(s);
  }
}
