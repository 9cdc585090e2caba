/**
 * Base64 in the alphabet of section 4 of RFC 4648 ("base64", '+' and '/', '=' padding),
 * decoded the way java.util.Base64.getDecoder() decodes it: a final unit of two or
 * three characters may be padded with '=' or left unpadded, the unused low bits of
 * the last character are not checked, and every other character, a lone final
 * character or misplaced padding is rejected.
 */
module Base64 {
  import opened Wrappers

  type Byte = b: int | 0 <= b < 256

  predicate IsBase64Char(c: char) {
    ('A' <= c <= 'Z') || ('a' <= c <= 'z') || ('0' <= c <= '9') || c == '+' || c == '/'
  }

  /** The 6-bit value of an alphabet character. */
  function ValueOf(c: char): (v: int)
    requires IsBase64Char(c)
    ensures 0 <= v < 64
  {
    if 'A' <= c <= 'Z' then c as int - 'A' as int
    else if 'a' <= c <= 'z' then c as int - 'a' as int + 26
    else if '0' <= c <= '9' then c as int - '0' as int + 52
    else if c == '+' then 62
    else 63
  }

  /** The alphabet character of a 6-bit value; the inverse of ValueOf. */
  function CharOf(v: int): (c: char)
    requires 0 <= v < 64
    ensures IsBase64Char(c) && ValueOf(c) == v
  {
    if v < 26 then ('A' as int + v) as char
    else if v < 52 then ('a' as int + v - 26) as char
    else if v < 62 then ('0' as int + v - 52) as char
    else if v == 62 then '+'
    else '/'
  }

  // The three bytes that four 6-bit values carry (the first one or two when the unit is short).
  function Byte0(v0: int, v1: int): Byte
    requires 0 <= v0 < 64 && 0 <= v1 < 64
  {
    v0 * 4 + v1 / 16
  }

  function Byte1(v1: int, v2: int): Byte
    requires 0 <= v1 < 64 && 0 <= v2 < 64
  {
    (v1 % 16) * 16 + v2 / 4
  }

  function Byte2(v2: int, v3: int): Byte
    requires 0 <= v2 < 64 && 0 <= v3 < 64
  {
    (v2 % 4) * 64 + v3
  }

  /** Java's basic Base64 decoder; `None` is its IllegalArgumentException. */
  function Decode(s: string): (r: Option<seq<Byte>>)
    ensures r.Some? ==> forall i :: 0 <= i < |s| ==> IsBase64Char(s[i]) || s[i] == '='
    decreases |s|
  {
    if |s| == 0 then Some([])
    else if |s| >= 4 && IsBase64Char(s[0]) && IsBase64Char(s[1]) && IsBase64Char(s[2]) && IsBase64Char(s[3]) then
      var v0, v1, v2, v3 := ValueOf(s[0]), ValueOf(s[1]), ValueOf(s[2]), ValueOf(s[3]);
      match Decode(s[4..])
      case None => None
      case Some(rest) => Some([Byte0(v0, v1), Byte1(v1, v2), Byte2(v2, v3)] + rest)
    else if |s| < 2 || !IsBase64Char(s[0]) || !IsBase64Char(s[1]) then None
    else
      var v0, v1 := ValueOf(s[0]), ValueOf(s[1]);
      if |s| == 2 || (|s| == 4 && s[2] == '=' && s[3] == '=') then Some([Byte0(v0, v1)])
      else if IsBase64Char(s[2]) && (|s| == 3 || (|s| == 4 && s[3] == '=')) then
        var v2 := ValueOf(s[2]);
        Some([Byte0(v0, v1), Byte1(v1, v2)])
      else None
  }

  /** The canonical padded encoding (what a client puts in a Basic header). */
  function Encode(bytes: seq<Byte>): (s: string)
    ensures |s| == 4 * ((|bytes| + 2) / 3)
    ensures forall i :: 0 <= i < |s| ==> IsBase64Char(s[i]) || s[i] == '='
    decreases |bytes|
  {
    if |bytes| == 0 then ""
    else if |bytes| == 1 then
      [CharOf(bytes[0] / 4), CharOf((bytes[0] % 4) * 16), '=', '=']
    else if |bytes| == 2 then
      [CharOf(bytes[0] / 4), CharOf((bytes[0] % 4) * 16 + bytes[1] / 16), CharOf((bytes[1] % 16) * 4), '=']
    else
      [CharOf(bytes[0] / 4), CharOf((bytes[0] % 4) * 16 + bytes[1] / 16),
       CharOf((bytes[1] % 16) * 4 + bytes[2] / 64), CharOf(bytes[2] % 64)] + Encode(bytes[3..])
  }

  lemma Byte0OfEncoding(b0: Byte, low: int)
    requires 0 <= low < 16
    ensures Byte0(b0 / 4, (b0 % 4) * 16 + low) == b0
  {
  }

  lemma Byte1OfEncoding(b1: Byte, high: int, low: int)
    requires 0 <= high < 4 && 0 <= low < 4
    ensures Byte1(high * 16 + b1 / 16, (b1 % 16) * 4 + low) == b1
  {
  }

  lemma Byte2OfEncoding(b2: Byte, high: int)
    requires 0 <= high < 16
    ensures Byte2(high * 4 + b2 / 64, b2 % 64) == b2
  {
  }

  /** Every four characters decode to three bytes; a final unit of n characters to n - 1,
      and the padding of a four-character final unit costs at most two bytes. */
  lemma {:induction false} DecodeLength(s: string)
    requires Decode(s).Some?
    ensures 3 * (|s| / 4) + (if |s| % 4 == 0 then 0 else |s| % 4 - 1) - 2 <= |Decode(s).value|
    ensures |Decode(s).value| <= 3 * (|s| / 4) + (if |s| % 4 == 0 then 0 else |s| % 4 - 1)
    decreases |s|
  {
    if |s| >= 4 && IsBase64Char(s[0]) && IsBase64Char(s[1]) && IsBase64Char(s[2]) && IsBase64Char(s[3]) {
      DecodeLength(s[4..]);
      assert |s[4..]| / 4 == |s| / 4 - 1 && |s[4..]| % 4 == |s| % 4;
    }
  }

  /** Round trip: Java's decoder recovers every canonical encoding. */
  lemma {:induction false} DecodeEncode(bytes: seq<Byte>)
    ensures Decode(Encode(bytes)) == Some(bytes)
    decreases |bytes|
  {
    var s := Encode(bytes);
    if |bytes| == 0 {
    } else if |bytes| == 1 {
      assert !IsBase64Char(s[2]) && s[2] == '=' && s[3] == '=';
      assert ValueOf(s[0]) == bytes[0] / 4 && ValueOf(s[1]) == (bytes[0] % 4) * 16 + 0;
      Byte0OfEncoding(bytes[0], 0);
      assert Decode(s) == Some([Byte0(bytes[0] / 4, (bytes[0] % 4) * 16 + 0)]);
      assert bytes == [bytes[0]];
    } else if |bytes| == 2 {
      assert !IsBase64Char(s[3]) && s[3] == '=';
      assert ValueOf(s[0]) == bytes[0] / 4;
      assert ValueOf(s[1]) == (bytes[0] % 4) * 16 + bytes[1] / 16;
      assert ValueOf(s[2]) == (bytes[1] % 16) * 4 + 0;
      Byte0OfEncoding(bytes[0], bytes[1] / 16);
      Byte1OfEncoding(bytes[1], bytes[0] % 4, 0);
      assert Decode(s) == Some([Byte0(ValueOf(s[0]), ValueOf(s[1])), Byte1(ValueOf(s[1]), ValueOf(s[2]))]);
      assert bytes == [bytes[0], bytes[1]];
    } else {
      DecodeEncode(bytes[3..]);
      assert s[4..] == Encode(bytes[3..]);
      Byte0OfEncoding(bytes[0], bytes[1] / 16);
      Byte1OfEncoding(bytes[1], bytes[0] % 4, bytes[2] / 64);
      Byte2OfEncoding(bytes[2], bytes[1] % 16);
      assert [bytes[0], bytes[1], bytes[2]] + bytes[3..] == bytes;
    }
  }

  /** A lone character, or any text holding a character outside the alphabet and '=', is rejected. */
  lemma {:induction false} DecodeRejectsForeignChar(s: string, j: nat)
    requires j < |s| && !IsBase64Char(s[j]) && s[j] != '='
    ensures Decode(s) == None
    decreases |s|
  {
    if |s| >= 4 && IsBase64Char(s[0]) && IsBase64Char(s[1]) && IsBase64Char(s[2]) && IsBase64Char(s[3]) {
      DecodeRejectsForeignChar(s[4..], j - 4);
    }
  }

  /** A final unit of exactly one character is never accepted. */
  lemma {:induction false} DecodeRejectsDanglingChar(s: string)
    requires |s| % 4 == 1
    ensures Decode(s) == None
    decreases |s|
  {
    if |s| >= 4 {
      DecodeRejectsDanglingChar(s[4..]);
    }
  }

  // ---------------------------------------------------------------------------
  // Text <-> bytes (`new String(bytes)` restricted to ISO-8859-1 code points)

  function BytesToText(bytes: seq<Byte>): (s: string)
    ensures |s| == |bytes|
    ensures forall i :: 0 <= i < |s| ==> s[i] as int == bytes[i]
  {
    seq(|bytes|, i requires 0 <= i < |bytes| => bytes[i] as char)
  }

  predicate IsLatin1(s: string) {
    forall i :: 0 <= i < |s| ==> s[i] as int < 256
  }

  function TextToBytes(s: string): (bytes: seq<Byte>)
    requires IsLatin1(s)
    ensures |bytes| == |s|
    ensures forall i :: 0 <= i < |s| ==> bytes[i] == s[i] as int
  {
    seq(|s|, i requires 0 <= i < |s| => s[i] as int as Byte)
  }

  lemma TextBytesRoundTrip(s: string)
    requires IsLatin1(s)
    ensures BytesToText(TextToBytes(s)) == s
  {
    var t := BytesToText(TextToBytes(s));
    assert |t| == |s|;
    forall i | 0 <= i < |s| ensures t[i] == s[i] {
      assert t[i] as int == s[i] as int;
    }
  }
}
