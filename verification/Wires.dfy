/** Values as bytes: JSON text and its encoding (UTF-8). */
module Wires {
  import opened Wrappers
  import opened Json
  import JsonText

  datatype Wire = Wire(codec: Codec, encode: string -> Bytes, decode: Bytes -> Option<string>) {
    function Write(j: Json): Bytes {
      encode(codec.print_(j))
    }

    /** Bytes that are not text are refused (UnicodeDecodeError). */
    function Read(bytes: Bytes): Reading {
      match decode(bytes)
      case None => Refused
      case Some(text) => codec.read(text)
    }
  }

  /** Decoding undoes encoding and reading undoes printing; objects are printed in braces, text is
      never encoded as nothing, and over-long numerals are refused. */
  ghost predicate Undoes(w: Wire) {
    && Faithful(w.codec) && Braced(w.codec) && LimitsDigits(w.codec)
    && (forall text :: w.decode(w.encode(text)) == Some(text))
    && (forall text :: text != "" ==> w.encode(text) != [])
  }

  lemma WriteReadsBack(w: Wire, j: Json)
    requires Undoes(w)
    ensures w.Read(w.Write(j)) == Parsed(j)
  {
    assert w.decode(w.encode(w.codec.print_(j))) == Some(w.codec.print_(j));
  }

  // ----- such a wire exists -----

  function CharBytes(c: char): Bytes {
    [c as int / 65536, c as int / 256 % 256, c as int % 256]
  }

  function TextBytes(s: string): Bytes {
    if s == "" then [] else CharBytes(s[0]) + TextBytes(s[1..])
  }

  lemma {:induction false} TextBytesAreDistinct(s: string, t: string)
    requires TextBytes(s) == TextBytes(t)
    ensures s == t
  {
    if s != "" && t != "" {
      assert CharBytes(s[0]) == TextBytes(s)[..3] == TextBytes(t)[..3] == CharBytes(t[0]);
      assert TextBytes(s[1..]) == TextBytes(s)[3..] == TextBytes(t)[3..] == TextBytes(t[1..]);
      TextBytesAreDistinct(s[1..], t[1..]);
      SameChar(s[0], t[0]);
      assert s == [s[0]] + s[1..] && t == [t[0]] + t[1..];
    }
  }

  lemma SameChar(c: char, d: char)
    requires CharBytes(c) == CharBytes(d)
    ensures c == d
  {
    var x, y := c as int, d as int;
    assert CharBytes(c)[0] == CharBytes(d)[0] && CharBytes(c)[1] == CharBytes(d)[1] && CharBytes(c)[2] == CharBytes(d)[2];
    assert x == x / 256 * 256 + x % 256 && x / 256 == x / 65536 * 256 + x / 256 % 256;
    assert y == y / 256 * 256 + y % 256 && y / 256 == y / 65536 * 256 + y / 256 % 256;
  }

  ghost function BytesText(bytes: Bytes): Option<string> {
    if s: string :| TextBytes(s) == bytes then Some(s) else None
  }

  /** The hypothesis on printing and encoding can be met. */
  lemma WiresExist()
    ensures exists w: Wire :: Undoes(w)
  {
    JsonText.FaithfulCodecsExist();
    var codec: Codec :| Faithful(codec) && Braced(codec) && LimitsDigits(codec);
    var w := Wire(codec, TextBytes, BytesText);
    forall text: string ensures BytesText(TextBytes(text)) == Some(text) {
      forall s: string | TextBytes(s) == TextBytes(text) ensures s == text {
        TextBytesAreDistinct(s, text);
      }
    }
    assert Undoes(w);
  }
}
