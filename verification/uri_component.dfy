/** ECMAScript's `encodeURIComponent`, which the share link applies to the
    topic, and the reading that undoes it: percent-decoding (section 2.1 of
    RFC 3986) followed by UTF-8 decoding (section 3 of RFC 3629). */
module UriComponent {
  import opened Text

  newtype Byte = x: int | 0 <= x < 256

  /** The characters `encodeURIComponent` leaves as they are: ASCII letters
      and digits and `- _ . ! ~ * ' ( )`. */
  predicate Kept(c: char) {
    || ('A' <= c <= 'Z') || ('a' <= c <= 'z') || ('0' <= c <= '9')
    || c == '-' || c == '_' || c == '.' || c == '!' || c == '~'
    || c == '*' || c == '\'' || c == '(' || c == ')'
  }

  /** The UTF-8 encoding of one Unicode scalar value (section 3 of RFC 3629):
      one byte below 0x80, then two, three or four bytes, a lead byte
      announcing the length followed by continuation bytes 0x80 to 0xBF. */
  function Utf8(c: char): (r: seq<Byte>)
    ensures 1 <= |r| <= 4 && |r| == LeadLength(r[0])
    ensures |r| == 1 <==> (c as int) < 0x80
    ensures forall i :: 1 <= i < |r| ==> 0x80 <= r[i] < 0xC0
  {
    var cp := c as int;
    if cp < 0x80 then [cp as Byte]
    else if cp < 0x800 then [(0xC0 + cp / 64) as Byte, (0x80 + cp % 64) as Byte]
    else if cp < 0x10000 then
      [(0xE0 + cp / 64 / 64) as Byte, (0x80 + cp / 64 % 64) as Byte, (0x80 + cp % 64) as Byte]
    else
      [(0xF0 + cp / 64 / 64 / 64) as Byte, (0x80 + cp / 64 / 64 % 64) as Byte,
       (0x80 + cp / 64 % 64) as Byte, (0x80 + cp % 64) as Byte]
  }

  /** How many bytes a sequence starting with this lead byte has; 0 for a
      byte that cannot start one. */
  function LeadLength(b: Byte): nat {
    if b < 0x80 then 1
    else if b < 0xC0 then 0
    else if b < 0xE0 then 2
    else if b < 0xF0 then 3
    else if b < 0xF8 then 4
    else 0
  }

  /** The code point a complete multi-byte sequence stands for, when it is
      the shortest form of a Unicode scalar value. */
  function DecodeSequence(bs: seq<Byte>): Option<char>
    requires 1 <= |bs| <= 4 && |bs| == LeadLength(bs[0])
  {
    if exists i :: 1 <= i < |bs| && !(0x80 <= bs[i] < 0xC0) then None
    else
      var cp :=
        if |bs| == 1 then bs[0] as int
        else if |bs| == 2 then (bs[0] as int - 0xC0) * 64 + (bs[1] as int - 0x80)
        else if |bs| == 3 then (bs[0] as int - 0xE0) * 4096 + (bs[1] as int - 0x80) * 64 + (bs[2] as int - 0x80)
        else (bs[0] as int - 0xF0) * 262144 + (bs[1] as int - 0x80) * 4096 + (bs[2] as int - 0x80) * 64 + (bs[3] as int - 0x80);
      var least := if |bs| == 1 then 0 else if |bs| == 2 then 0x80 else if |bs| == 3 then 0x800 else 0x10000;
      if least <= cp && (cp < 0xD800 || 0xE000 <= cp < 0x11_0000) then Some(cp as char) else None
  }

  /** UTF-8 decoding of a whole byte sequence; `None` for a malformed one. */
  function Utf8Decode(bs: seq<Byte>): Option<string>
    decreases |bs|
  {
    if bs == [] then Some([])
    else
      var n := LeadLength(bs[0]);
      if n == 0 || |bs| < n then None
      else
        match DecodeSequence(bs[..n])
        case None => None
        case Some(c) =>
          match Utf8Decode(bs[n..])
          case None => None
          case Some(rest) => Some([c] + rest)
  }

  /** Each character's bytes decode back to it. */
  lemma DecodeUtf8Char(c: char)
    ensures DecodeSequence(Utf8(c)) == Some(c)
  {
    var cp := c as int;
    var r := Utf8(c);
    assert !exists i :: 1 <= i < |r| && !(0x80 <= r[i] < 0xC0);
    if cp < 0x80 {
    } else if cp < 0x800 {
      Digits2(cp);
    } else if cp < 0x10000 {
      Digits3(cp);
    } else {
      Digits4(cp);
    }
  }

  lemma Digits2(cp: int)
    requires 0x80 <= cp < 0x800
    ensures (cp / 64) * 64 + cp % 64 == cp
  {
  }

  lemma Digits3(cp: int)
    requires 0x800 <= cp < 0x10000
    ensures (cp / 64 / 64) * 4096 + (cp / 64 % 64) * 64 + cp % 64 == cp
  {
    var q := cp / 64;
    assert cp == q * 64 + cp % 64;
    assert q == (q / 64) * 64 + q % 64;
  }

  lemma Digits4(cp: int)
    requires 0x10000 <= cp < 0x11_0000
    ensures (cp / 64 / 64 / 64) * 262144 + (cp / 64 / 64 % 64) * 4096 + (cp / 64 % 64) * 64 + cp % 64 == cp
  {
    var q := cp / 64;
    var q2 := q / 64;
    assert cp == q * 64 + cp % 64;
    assert q == q2 * 64 + q % 64;
    assert q2 == (q2 / 64) * 64 + q2 % 64;
  }

  /** A string's UTF-8 bytes: its characters' encodings, in order. */
  function Utf8String(s: string): seq<Byte>
    decreases |s|
  {
    if s == [] then [] else Utf8(s[0]) + Utf8String(s[1..])
  }

  lemma {:induction false} Utf8RoundTrip(s: string)
    ensures Utf8Decode(Utf8String(s)) == Some(s)
    decreases |s|
  {
    if s != [] {
      Utf8RoundTrip(s[1..]);
      var head, tail := Utf8(s[0]), Utf8String(s[1..]);
      var bs := head + tail;
      assert bs[0] == head[0];
      assert bs[..|head|] == head && bs[|head|..] == tail;
      DecodeUtf8Char(s[0]);
      assert [s[0]] + s[1..] == s;
    }
  }

  /** The upper-case hexadecimal digit for d. */
  function HexDigit(d: int): (c: char)
    requires 0 <= d < 16
    ensures Kept(c) && c != '%'
  {
    "0123456789ABCDEF"[d]
  }

  /** The value of a hexadecimal digit of either case. */
  function HexValue(c: char): Option<int> {
    if '0' <= c <= '9' then Some(c as int - '0' as int)
    else if 'A' <= c <= 'F' then Some(c as int - 'A' as int + 10)
    else if 'a' <= c <= 'f' then Some(c as int - 'a' as int + 10)
    else None
  }

  lemma HexDigitValue(d: int)
    requires 0 <= d < 16
    ensures HexValue(HexDigit(d)) == Some(d)
  {
  }

  /** Every character is kept or a `%`. */
  predicate UriSafe(s: string) {
    forall i :: 0 <= i < |s| ==> Kept(s[i]) || s[i] == '%'
  }

  lemma UriSafeConcat(a: string, b: string)
    requires UriSafe(a) && UriSafe(b)
    ensures UriSafe(a + b)
  {
    assert forall i :: |a| <= i < |a + b| ==> (a + b)[i] == b[i - |a|];
  }

  /** `%XX` for every byte, with upper-case digits. */
  function PercentBytes(bs: seq<Byte>): (r: string)
    ensures |r| == 3 * |bs|
    ensures UriSafe(r)
    decreases |bs|
  {
    if bs == [] then []
    else
      var head := EscapeByte(bs[0]);
      var tail := PercentBytes(bs[1..]);
      UriSafeConcat(head, tail);
      head + tail
  }

  /** `%` and the byte's two upper-case hexadecimal digits. */
  function EscapeByte(b: Byte): (r: string)
    ensures |r| == 3 && UriSafe(r)
  {
    ['%', HexDigit(b as int / 16), HexDigit(b as int % 16)]
  }

  function EncodeChar(c: char): (r: string)
    ensures |r| >= 1
    ensures UriSafe(r)
  {
    if Kept(c) then [c] else PercentBytes(Utf8(c))
  }

  /** `encodeURIComponent`: kept characters stay, every other character
      becomes its UTF-8 bytes, percent-encoded. The result holds only kept
      characters and `%`, so none of the query's delimiters `&`, `=`, `#`,
      `+` or a space, and it equals a text made of kept characters only. */
  function EncodeUriComponent(s: string): (r: string)
    ensures |r| >= |s|
    ensures UriSafe(r)
    ensures (forall i :: 0 <= i < |s| ==> Kept(s[i])) ==> r == s
    decreases |s|
  {
    if s == [] then []
    else
      var head := EncodeChar(s[0]);
      var tail := EncodeUriComponent(s[1..]);
      UriSafeConcat(head, tail);
      head + tail
  }

  /** Percent-decoding (section 2.1 of RFC 3986): `%` and two hexadecimal
      digits stand for a byte; any other character stands for its own
      UTF-8 bytes. */
  function PercentDecode(s: string): seq<Byte>
    decreases |s|
  {
    if s == [] then []
    else if s[0] == '%' && |s| >= 3 && HexValue(s[1]).Some? && HexValue(s[2]).Some? then
      [(HexValue(s[1]).value * 16 + HexValue(s[2]).value) as Byte] + PercentDecode(s[3..])
    else Utf8(s[0]) + PercentDecode(s[1..])
  }

  /** A byte's escape decodes to that byte. */
  lemma PercentDecodeStep(b: Byte, rest: string)
    ensures PercentDecode(EscapeByte(b) + rest) == [b] + PercentDecode(rest)
  {
    var hi, lo := b as int / 16, b as int % 16;
    HexDigitValue(hi);
    HexDigitValue(lo);
    var s := EscapeByte(b) + rest;
    assert s[0] == '%' && s[1] == HexDigit(hi) && s[2] == HexDigit(lo) && s[3..] == rest;
    assert (hi * 16 + lo) as Byte == b;
  }

  lemma {:induction false} PercentDecodeBytes(bs: seq<Byte>, rest: string)
    ensures PercentDecode(PercentBytes(bs) + rest) == bs + PercentDecode(rest)
    decreases |bs|
  {
    if bs == [] {
      assert PercentBytes(bs) + rest == rest;
    } else {
      var tail := PercentBytes(bs[1..]) + rest;
      assert PercentBytes(bs) + rest == EscapeByte(bs[0]) + tail;
      PercentDecodeStep(bs[0], tail);
      PercentDecodeBytes(bs[1..], rest);
      ConsConcat(bs, PercentDecode(rest));
    }
  }

  lemma ConsConcat<T>(a: seq<T>, b: seq<T>)
    requires a != []
    ensures [a[0]] + (a[1..] + b) == a + b
  {
    assert [a[0]] + a[1..] == a;
  }

  lemma {:induction false} PercentDecodeEncoded(s: string)
    ensures PercentDecode(EncodeUriComponent(s)) == Utf8String(s)
    decreases |s|
  {
    if s != [] {
      PercentDecodeEncoded(s[1..]);
      var tail := EncodeUriComponent(s[1..]);
      if Kept(s[0]) {
        var e := [s[0]] + tail;
        assert e[1..] == tail;
      } else {
        PercentDecodeBytes(Utf8(s[0]), tail);
      }
    }
  }

  /** `decodeURIComponent` on what the encoder can produce. */
  function DecodeUriComponent(s: string): Option<string> {
    Utf8Decode(PercentDecode(s))
  }

  /** Decoding undoes encoding for every text, so the encoder never loses
      or confuses a character. */
  lemma EncodeRoundTrip(s: string)
    ensures DecodeUriComponent(EncodeUriComponent(s)) == Some(s)
  {
    PercentDecodeEncoded(s);
    Utf8RoundTrip(s);
  }
}
