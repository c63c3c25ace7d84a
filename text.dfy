/** JavaScript text as this model sees it: a string is a sequence of UTF-16
    code units, as String.fromCharCode builds it. */
module Text {
  import opened Types

  type CodeUnit = u16
  type JsString = seq<CodeUnit>

  /** The decimal digits JavaScript prints for a non-negative integer:
      the digits read back as n, with no leading zero. */
  function Decimal(n: nat): (s: string)
    ensures |s| >= 1
    ensures forall k :: 0 <= k < |s| ==> '0' <= s[k] <= '9'
    ensures n >= 10 <==> |s| > 1 && s[0] != '0'
    ensures |s| == 1 || s[0] != '0'
    ensures DigitsValue(s) == n
    decreases n
  {
    if n < 10 then [Digit(n)] else Decimal(n / 10) + [Digit(n % 10)]
  }

  function Digit(d: nat): char
    requires d < 10
  {
    ('0' as int + d) as char
  }

  /** The number a string of decimal digits denotes, most significant
      digit first. */
  function DigitsValue(s: string): int
    decreases |s|
  {
    if s == [] then 0 else 10 * DigitsValue(s[..|s| - 1]) + (s[|s| - 1] as int - '0' as int)
  }

  /** Big-endian UTF-16 decoding: each pair of bytes is one code unit.
      Surrogate pairs stay two code units, as in a JavaScript string. */
  function Utf16BeDecode(bytes: seq<byte>): (s: JsString)
    ensures |s| == |bytes| / 2
    ensures forall k :: 0 <= k < |s| ==> s[k] == Word(bytes[2 * k], bytes[2 * k + 1])
  {
    seq(|bytes| / 2, k requires 0 <= k < |bytes| / 2 => Word(bytes[2 * k], bytes[2 * k + 1]))
  }

  /** Big-endian UTF-16 encoding of a string of code units. */
  function Utf16BeEncode(s: JsString): (bytes: seq<byte>)
    ensures |bytes| == 2 * |s|
    decreases |s|
  {
    if s == [] then [] else Utf16BeEncode(s[..|s| - 1]) + U16Bytes(s[|s| - 1])
  }

  lemma {:induction false} Utf16BeEncodeAt(s: JsString, k: nat)
    requires k < |s|
    ensures Word(Utf16BeEncode(s)[2 * k], Utf16BeEncode(s)[2 * k + 1]) == s[k]
    decreases |s|
  {
    var init := s[..|s| - 1];
    if k < |s| - 1 {
      Utf16BeEncodeAt(init, k);
      assert Utf16BeEncode(s)[2 * k] == Utf16BeEncode(init)[2 * k];
      assert Utf16BeEncode(s)[2 * k + 1] == Utf16BeEncode(init)[2 * k + 1];
    } else {
      assert Utf16BeEncode(s)[2 * k] == U16Bytes(s[k])[0];
      assert Utf16BeEncode(s)[2 * k + 1] == U16Bytes(s[k])[1];
    }
  }

  /** Decoding what was encoded gives back the same code units. */
  lemma Utf16BeRoundTrip(s: JsString)
    ensures Utf16BeDecode(Utf16BeEncode(s)) == s
  {
    var d := Utf16BeDecode(Utf16BeEncode(s));
    forall k | 0 <= k < |s| ensures d[k] == s[k] {
      Utf16BeEncodeAt(s, k);
    }
  }
}
