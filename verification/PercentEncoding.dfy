/**
 * Percent-encoding of strings as `encodeURIComponent` and `decodeURIComponent` perform it:
 * UTF-8 (section 3 of RFC 3629) with every byte outside the unreserved set written as an
 * escape (section 2.1 of RFC 3986). A Dafny `char` is a Unicode scalar value, so a `string`
 * is exactly a well-formed JavaScript string.
 */
module PercentEncoding {
  import opened Wrappers

  predicate IsByte(n: int) {
    0 <= n < 256
  }

  function Utf8(c: char): (bytes: seq<int>)
    ensures 1 <= |bytes| <= 4
    ensures forall i :: 0 <= i < |bytes| ==> IsByte(bytes[i])
  {
    var n := c as int;
    if n < 0x80 then [n]
    else if n < 0x800 then [0xC0 + n / 64, 0x80 + n % 64]
    else if n < 0x10000 then [0xE0 + n / 4096, 0x80 + n / 64 % 64, 0x80 + n % 64]
    else [0xF0 + n / 262144, 0x80 + n / 4096 % 64, 0x80 + n / 64 % 64, 0x80 + n % 64]
  }

  /** The number of bytes a string takes in UTF-8. */
  function ByteLength(s: string): nat {
    if s == "" then 0 else |Utf8(s[0])| + ByteLength(s[1..])
  }

  predicate Unreserved(c: char) {
    'A' <= c <= 'Z' || 'a' <= c <= 'z' || '0' <= c <= '9' ||
    c == '-' || c == '_' || c == '.' || c == '!' || c == '~' || c == '*' || c == '\'' || c == '(' || c == ')'
  }

  function HexDigit(n: int): char
    requires 0 <= n < 16
  {
    if n < 10 then (48 + n) as char else (55 + n) as char
  }

  function HexValue(c: char): Option<int> {
    if '0' <= c <= '9' then Some(c as int - 48)
    else if 'A' <= c <= 'F' then Some(c as int - 55)
    else if 'a' <= c <= 'f' then Some(c as int - 87)
    else None
  }

  function Escape(b: int): string
    requires IsByte(b)
  {
    ['%', HexDigit(b / 16), HexDigit(b % 16)]
  }

  function EscapeAll(bytes: seq<int>): string
    requires forall i :: 0 <= i < |bytes| ==> IsByte(bytes[i])
  {
    if bytes == [] then "" else Escape(bytes[0]) + EscapeAll(bytes[1..])
  }

  function EncodeChar(c: char): string {
    if Unreserved(c) then [c] else EscapeAll(Utf8(c))
  }

  function Encode(s: string): string {
    if s == "" then "" else EncodeChar(s[0]) + Encode(s[1..])
  }

  // ---------------------------------------------------------------------------------------
  // Decoding

  /** The byte written by an escape at position `i`, if there is a well-formed one. */
  function EscapeAt(s: string, i: nat): Option<int> {
    if i + 2 < |s| && s[i] == '%' && HexValue(s[i + 1]).Some? && HexValue(s[i + 2]).Some?
    then Some(16 * HexValue(s[i + 1]).value + HexValue(s[i + 2]).value)
    else None
  }

  /** The low six bits of a continuation byte escaped at position `i`. */
  function ContinuationAt(s: string, i: nat): Option<int> {
    match EscapeAt(s, i)
    case None => None
    case Some(b) => if 0x80 <= b < 0xC0 then Some(b - 0x80) else None
  }

  predicate IsScalar(n: int) {
    0 <= n < 0xD800 || 0xE000 <= n < 0x110000
  }

  /** The first character of a nonempty encoded string and the number of characters it took. */
  function DecodeFirst(s: string): (r: Option<(char, nat)>)
    requires s != ""
    ensures r.Some? ==> 1 <= r.value.1 <= |s|
  {
    if s[0] != '%' then Some((s[0], 1))
    else
      match EscapeAt(s, 0)
      case None => None
      case Some(b) =>
        if b < 0x80 then Some((b as char, 3))
        else if 0xC0 <= b < 0xE0 then
          match ContinuationAt(s, 3)
          case None => None
          case Some(x) =>
            var n := (b - 0xC0) * 64 + x;
            if 0x80 <= n then Some((n as char, 6)) else None
        else if 0xE0 <= b < 0xF0 then
          (match (ContinuationAt(s, 3), ContinuationAt(s, 6))
           case (Some(x), Some(y)) =>
             var n := (b - 0xE0) * 4096 + x * 64 + y;
             if 0x800 <= n && IsScalar(n) then Some((n as char, 9)) else None
           case (_, _) => None)
        else if 0xF0 <= b < 0xF8 then
          (match (ContinuationAt(s, 3), ContinuationAt(s, 6), ContinuationAt(s, 9))
           case (Some(x), Some(y), Some(z)) =>
             var n := (b - 0xF0) * 262144 + x * 4096 + y * 64 + z;
             if 0x10000 <= n && IsScalar(n) then Some((n as char, 12)) else None
           case (_, _, _) => None)
        else None
  }

  /** `None` where `decodeURIComponent` throws. */
  function Decode(s: string): Option<string>
    decreases |s|
  {
    if s == "" then Some("")
    else
      match DecodeFirst(s)
      case None => None
      case Some((c, n)) =>
        match Decode(s[n..])
        case None => None
        case Some(rest) => Some([c] + rest)
  }

  // ---------------------------------------------------------------------------------------
  // Laws

  lemma EscapeReads(b: int, before: string, after: string)
    requires IsByte(b)
    ensures EscapeAt(before + Escape(b) + after, |before|) == Some(b)
  {
    var s := before + Escape(b) + after;
    var i := |before|;
    assert s[i] == '%' && s[i + 1] == HexDigit(b / 16) && s[i + 2] == HexDigit(b % 16);
    assert HexValue(HexDigit(b / 16)) == Some(b / 16);
    assert HexValue(HexDigit(b % 16)) == Some(b % 16);
  }

  /** The escapes of a character's bytes, read back one by one. */
  lemma {:induction false} EscapesRead(bytes: seq<int>, before: string, after: string, k: nat)
    requires forall i :: 0 <= i < |bytes| ==> IsByte(bytes[i])
    requires k < |bytes|
    ensures |EscapeAll(bytes)| == 3 * |bytes|
    ensures EscapeAt(before + EscapeAll(bytes) + after, |before| + 3 * k) == Some(bytes[k])
  {
    EscapeAllLength(bytes);
    if k == 0 {
      EscapeReads(bytes[0], before, EscapeAll(bytes[1..]) + after);
      assert before + Escape(bytes[0]) + (EscapeAll(bytes[1..]) + after) == before + EscapeAll(bytes) + after;
    } else {
      EscapesRead(bytes[1..], before + Escape(bytes[0]), after, k - 1);
      assert before + Escape(bytes[0]) + EscapeAll(bytes[1..]) + after == before + EscapeAll(bytes) + after;
    }
  }

  lemma {:induction false} EscapeAllLength(bytes: seq<int>)
    requires forall i :: 0 <= i < |bytes| ==> IsByte(bytes[i])
    ensures |EscapeAll(bytes)| == 3 * |bytes|
  {
    if bytes != [] {
      EscapeAllLength(bytes[1..]);
    }
  }

  /** The bytes of a character carry its code point in groups of six bits. */
  lemma Utf8Value(c: char)
    ensures var n, b := c as int, Utf8(c);
            match |b|
            case 1 => n == b[0] < 0x80
            case 2 => n == (b[0] - 0xC0) * 64 + (b[1] - 0x80) && b[0] < 0xE0
            case 3 => n == (b[0] - 0xE0) * 4096 + (b[1] - 0x80) * 64 + (b[2] - 0x80) && b[0] < 0xF0
            case _ =>
              var low := (b[1] - 0x80) * 4096 + (b[2] - 0x80) * 64 + (b[3] - 0x80);
              n == (b[0] - 0xF0) * 262144 + low && b[0] < 0xF8
  {
    var n := c as int;
    assert n / 64 == n / 4096 * 64 + n / 64 % 64;
    assert n / 4096 == n / 262144 * 64 + n / 4096 % 64;
  }

  lemma DecodeTwo(s: string, a: int, b: int, n: int)
    requires EscapeAt(s, 0) == Some(a) && EscapeAt(s, 3) == Some(b)
    requires 0xC0 <= a < 0xE0 && 0x80 <= b < 0xC0 && n == (a - 0xC0) * 64 + (b - 0x80) && 0x80 <= n
    ensures s != "" && DecodeFirst(s) == Some((n as char, 6))
  {
  }

  lemma DecodeThree(s: string, a: int, b: int, d: int, n: int)
    requires EscapeAt(s, 0) == Some(a) && EscapeAt(s, 3) == Some(b) && EscapeAt(s, 6) == Some(d)
    requires 0xE0 <= a < 0xF0 && 0x80 <= b < 0xC0 && 0x80 <= d < 0xC0
    requires n == (a - 0xE0) * 4096 + (b - 0x80) * 64 + (d - 0x80) && 0x800 <= n && IsScalar(n)
    ensures s != "" && DecodeFirst(s) == Some((n as char, 9))
  {
  }

  lemma DecodeFour(s: string, a: int, b: int, d: int, e: int, n: int)
    requires EscapeAt(s, 0) == Some(a) && EscapeAt(s, 3) == Some(b)
    requires EscapeAt(s, 6) == Some(d) && EscapeAt(s, 9) == Some(e)
    requires 0xF0 <= a < 0xF8 && 0x80 <= b < 0xC0 && 0x80 <= d < 0xC0 && 0x80 <= e < 0xC0
    requires n == (a - 0xF0) * 262144 + (b - 0x80) * 4096 + (d - 0x80) * 64 + (e - 0x80)
    requires 0x10000 <= n && IsScalar(n)
    ensures s != "" && DecodeFirst(s) == Some((n as char, 12))
  {
  }

  /** A string that starts with the escapes of a character's bytes decodes to that character. */
  lemma DecodeBytes(s: string, c: char)
    requires forall k :: 0 <= k < |Utf8(c)| ==> EscapeAt(s, 3 * k) == Some(Utf8(c)[k])
    ensures s != "" && DecodeFirst(s) == Some((c, 3 * |Utf8(c)|))
  {
    var n := c as int;
    var bytes := Utf8(c);
    Utf8Value(c);
    assert EscapeAt(s, 3 * 0) == Some(bytes[0]);
    if |bytes| > 1 { assert EscapeAt(s, 3 * 1) == Some(bytes[1]); }
    if |bytes| > 2 { assert EscapeAt(s, 3 * 2) == Some(bytes[2]); }
    if |bytes| > 3 { assert EscapeAt(s, 3 * 3) == Some(bytes[3]); }
    if |bytes| == 2 {
      DecodeTwo(s, bytes[0], bytes[1], n);
    } else if |bytes| == 3 {
      DecodeThree(s, bytes[0], bytes[1], bytes[2], n);
    } else if |bytes| == 4 {
      DecodeFour(s, bytes[0], bytes[1], bytes[2], bytes[3], n);
    }
  }

  lemma DecodeEncodedChar(c: char, after: string)
    ensures DecodeFirst(EncodeChar(c) + after) == Some((c, |EncodeChar(c)|))
  {
    if !Unreserved(c) {
      var bytes := Utf8(c);
      var s := EncodeChar(c) + after;
      EscapeAllLength(bytes);
      assert "" + EscapeAll(bytes) + after == s;
      forall k | 0 <= k < |bytes| ensures EscapeAt(s, 3 * k) == Some(bytes[k]) {
        EscapesRead(bytes, "", after, k);
      }
      DecodeBytes(s, c);
    }
  }

  /** Decoding an encoded string gives the string back. */
  lemma {:induction false} DecodeEncode(s: string)
    ensures Decode(Encode(s)) == Some(s)
  {
    if s != "" {
      DecodeEncodedChar(s[0], Encode(s[1..]));
      EscapeAllLength(Utf8(s[0]));
      var n := |EncodeChar(s[0])|;
      assert Encode(s)[n..] == Encode(s[1..]);
      DecodeEncode(s[1..]);
      assert Encode(s) != "";
      assert [s[0]] + s[1..] == s;
    }
  }

  /** Characters that an encoded string can contain; none is a delimiter, a blank or non-ASCII. */
  predicate EncodedChar(c: char) {
    Unreserved(c) || c == '%'
  }

  lemma {:induction false} EscapeAllChars(bytes: seq<int>)
    requires forall i :: 0 <= i < |bytes| ==> IsByte(bytes[i])
    ensures forall i :: 0 <= i < |EscapeAll(bytes)| ==> EncodedChar(EscapeAll(bytes)[i])
  {
    if bytes != [] {
      EscapeAllChars(bytes[1..]);
    }
  }

  lemma {:induction false} EncodeChars(s: string)
    ensures forall i :: 0 <= i < |Encode(s)| ==> EncodedChar(Encode(s)[i])
  {
    if s != "" {
      EscapeAllChars(Utf8(s[0]));
      EncodeChars(s[1..]);
    }
  }

  lemma {:induction false} EncodeConcat(a: string, b: string)
    ensures Encode(a + b) == Encode(a) + Encode(b)
  {
    if a == "" {
      assert a + b == b;
    } else {
      assert (a + b)[1..] == a[1..] + b;
      EncodeConcat(a[1..], b);
    }
  }

  /** An encoded character takes one to twelve characters. */
  lemma EncodedCharLength(c: char)
    ensures 1 <= |EncodeChar(c)| <= 12 && Encode([c]) == EncodeChar(c)
  {
    EscapeAllLength(Utf8(c));
  }

  /** Encoded strings are ASCII, so their byte length is their length. */
  lemma {:induction false} EncodedByteLength(s: string)
    requires forall i :: 0 <= i < |s| ==> EncodedChar(s[i])
    ensures ByteLength(s) == |s|
  {
    if s != "" {
      EncodedByteLength(s[1..]);
    }
  }
}
