/** The "B" encoded-word of section 4 of RFC 2047 (`=?charset?b?base64?=`), which
    `rfc2047` in tickets_polls/base/u_email.py builds for display names and
    attachment file names, and a reader that takes such a word apart again. */
module EncodedWord {
  import opened Wrappers
  import opened Strings
  import Base64

  /** All characters are 7-bit ASCII, as raw header text must be. */
  predicate IsAscii(s: string)
  {
    forall i | 0 <= i < |s| :: s[i] as int < 128
  }

  /** `rfc2047(s, charset)`, given `bytes == s.encode(charset)`. The word is pure
      ASCII whenever the charset name is, and its length is fixed by the charset
      name and the number of bytes alone. */
  function Rfc2047(bytes: seq<Base64.Byte>, charset: string): (w: string)
    ensures |w| == |charset| + 7 + 4 * ((|bytes| + 2) / 3)
    ensures IsAscii(charset) ==> IsAscii(w)
    ensures ';' !in charset ==> ';' !in w
  {
    "=?" + charset + "?b?" + Base64.Encode(bytes) + "?="
  }

  /** Takes an encoded word apart: the charset between "=?" and the next '?', the
      encoding letter ('b' or 'B'), then base64 text up to the closing "?=".
      `None` for anything else. */
  function Parse(w: string): Option<(string, seq<Base64.Byte>)>
  {
    if |w| < 4 || w[..2] != "=?" || w[|w| - 2..] != "?=" then None
    else
      var inner := w[2..|w| - 2];
      var i := IndexOf(inner, '?');
      if |inner| < i + 3 || (inner[i + 1] != 'b' && inner[i + 1] != 'B') || inner[i + 2] != '?' then None
      else
        match Base64.Decode(inner[i + 3..])
        case None => None
        case Some(bytes) => Some((inner[..i], bytes))
  }

  /** The first '?' after a charset name is the one that ends it. */
  lemma IndexAfterCharset(charset: string, rest: string)
    requires '?' !in charset
    ensures IndexOf(charset + "?" + rest, '?') == |charset|
  {
    var s := charset + "?" + rest;
    assert s[|charset|] == '?';
    forall j | 0 <= j < |charset| ensures s[j] != '?' {
      assert s[j] == charset[j];
    }
  }

  /** The delimiters "=?" and "?=" frame the inner text. */
  lemma Delimiters(inner: string)
    ensures var w := "=?" + inner + "?=";
      |w| >= 4 && w[..2] == "=?" && w[|w| - 2..] == "?=" && w[2..|w| - 2] == inner
  {
  }

  /** Round trip: reading back an encoded word yields exactly the charset and the
      bytes it was built from. It holds for charset names without '?'; a name
      with one still encodes, but its word cannot be read back. */
  lemma ParseRfc2047(bytes: seq<Base64.Byte>, charset: string)
    requires '?' !in charset
    ensures Parse(Rfc2047(bytes, charset)) == Some((charset, bytes))
  {
    var text := Base64.Encode(bytes);
    var inner := charset + "?" + ("b?" + text);
    assert Rfc2047(bytes, charset) == "=?" + inner + "?=";
    Delimiters(inner);
    IndexAfterCharset(charset, "b?" + text);
    assert inner[..|charset|] == charset;
    assert inner[|charset| + 3..] == text;
    Base64.DecodeEncode(bytes);
  }
}
