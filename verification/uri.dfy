/** Percent-encoding of URI components as `encodeURIComponent` performs it:
    characters outside its unescaped set become the `%XX` escapes
    (section 2.1 of RFC 3986) of their UTF-8 bytes (section 3 of
    RFC 3629). The decoder plays `decodeURIComponent`, so that encoding
    can be shown to lose nothing. */
module Uri {
  import opened Base

  type Byte = b: int | 0 <= b < 256

  /** The characters `encodeURIComponent` leaves alone: the unreserved set
      of section 2.3 of RFC 3986 plus `!`, `'`, `(`, `)` and `*`. */
  predicate IsUnescaped(c: char) {
    ('A' <= c <= 'Z') || ('a' <= c <= 'z') || ('0' <= c <= '9')
    || c == '-' || c == '_' || c == '.' || c == '!' || c == '~'
    || c == '*' || c == '\'' || c == '(' || c == ')'
  }

  // ---------------------------------------------------------------------
  // UTF-8
  // ---------------------------------------------------------------------

  /** Number of bytes announced by a lead byte, 0 for a byte that cannot
      lead a sequence. */
  function SequenceLength(lead: Byte): nat {
    if lead < 0x80 then 1
    else if 0xC0 <= lead < 0xE0 then 2
    else if 0xE0 <= lead < 0xF0 then 3
    else if 0xF0 <= lead < 0xF8 then 4
    else 0
  }

  predicate IsContinuation(b: Byte) {
    0x80 <= b < 0xC0
  }

  /** The UTF-8 bytes of a Unicode scalar value. */
  function Utf8(c: char): (bs: seq<Byte>)
    ensures 1 <= |bs| <= 4
    ensures SequenceLength(bs[0]) == |bs|
    ensures forall i :: 1 <= i < |bs| ==> IsContinuation(bs[i])
    ensures |bs| == 1 <==> (c as int) < 0x80
  {
    var cp := c as int;
    if cp < 0x80 then [cp]
    else if cp < 0x800 then [0xC0 + cp / 64, 0x80 + cp % 64]
    else if cp < 0x10000 then [0xE0 + cp / 4096, 0x80 + (cp / 64) % 64, 0x80 + cp % 64]
    else [0xF0 + cp / 262144, 0x80 + (cp / 4096) % 64, 0x80 + (cp / 64) % 64, 0x80 + cp % 64]
  }

  /** Decoding of one UTF-8 sequence, refusing bad continuation bytes,
      overlong forms, surrogates and values past U+10FFFF as section 3 of
      RFC 3629 requires. */
  function DecodeUtf8(bs: seq<Byte>): (r: Option<char>) {
    if |bs| == 1 then
      if bs[0] < 0x80 then Some(bs[0] as char) else None
    else if |bs| == 2 then
      if 0xC0 <= bs[0] < 0xE0 && IsContinuation(bs[1]) then
        var cp := (bs[0] as int - 0xC0) * 64 + (bs[1] as int - 0x80);
        if cp >= 0x80 then Some(cp as char) else None
      else None
    else if |bs| == 3 then
      if 0xE0 <= bs[0] < 0xF0 && IsContinuation(bs[1]) && IsContinuation(bs[2]) then
        var cp := (bs[0] as int - 0xE0) * 4096 + (bs[1] as int - 0x80) * 64 + (bs[2] as int - 0x80);
        if cp >= 0x800 && !(0xD800 <= cp < 0xE000) then Some(cp as char) else None
      else None
    else if |bs| == 4 then
      if 0xF0 <= bs[0] < 0xF8 && IsContinuation(bs[1]) && IsContinuation(bs[2]) && IsContinuation(bs[3]) then
        var cp := (bs[0] as int - 0xF0) * 262144 + (bs[1] as int - 0x80) * 4096
                  + (bs[2] as int - 0x80) * 64 + (bs[3] as int - 0x80);
        if 0x10000 <= cp <= 0x10FFFF then Some(cp as char) else None
      else None
    else None
  }

  lemma Utf8TwoBytes(cp: int)
    requires 0x80 <= cp < 0x800
    ensures (0xC0 + cp / 64 - 0xC0) * 64 + (0x80 + cp % 64 - 0x80) == cp
  {
  }

  lemma Utf8ThreeBytes(cp: int)
    requires 0x800 <= cp < 0x10000
    ensures (cp / 4096) * 4096 + ((cp / 64) % 64) * 64 + cp % 64 == cp
    ensures 0 <= cp / 4096 < 16
  {
    assert cp / 64 == (cp / 4096) * 64 + (cp / 64) % 64;
  }

  lemma Utf8FourBytes(cp: int)
    requires 0x10000 <= cp <= 0x10FFFF
    ensures (cp / 262144) * 262144 + ((cp / 4096) % 64) * 4096 + ((cp / 64) % 64) * 64 + cp % 64 == cp
    ensures 0 <= cp / 262144 < 8
  {
    assert cp / 4096 == (cp / 262144) * 64 + (cp / 4096) % 64;
    assert cp / 64 == (cp / 4096) * 64 + (cp / 64) % 64;
  }

  /** Decoding the bytes of a character gives the character back. */
  lemma Utf8RoundTrip(c: char)
    ensures DecodeUtf8(Utf8(c)) == Some(c)
  {
    var cp := c as int;
    if cp < 0x80 {
    } else if cp < 0x800 {
      Utf8TwoBytes(cp);
    } else if cp < 0x10000 {
      Utf8ThreeBytes(cp);
    } else {
      Utf8FourBytes(cp);
    }
  }

  // ---------------------------------------------------------------------
  // Hexadecimal escapes
  // ---------------------------------------------------------------------

  /** Upper-case hexadecimal digit, as `encodeURIComponent` writes it. */
  function HexDigit(d: nat): (c: char)
    requires d < 16
    ensures IsUpperHex(c)
  {
    if d < 10 then ((('0' as int) + d) as char) else ((('A' as int) + d - 10) as char)
  }

  predicate IsUpperHex(c: char) {
    ('0' <= c <= '9') || ('A' <= c <= 'F')
  }

  /** Value of a hexadecimal digit of either case. */
  function HexValue(c: char): (r: Option<nat>)
    ensures r.Some? ==> r.value < 16
  {
    if '0' <= c <= '9' then Some(c as int - '0' as int)
    else if 'A' <= c <= 'F' then Some(c as int - 'A' as int + 10)
    else if 'a' <= c <= 'f' then Some(c as int - 'a' as int + 10)
    else None
  }

  lemma HexDigitValue(d: nat)
    requires d < 16
    ensures HexValue(HexDigit(d)) == Some(d)
  {
  }

  /** `%XX` for every byte. */
  function Escape(bs: seq<Byte>): (r: string)
    ensures |r| == 3 * |bs|
    ensures forall i :: 0 <= i < |r| ==> r[i] == '%' || IsUpperHex(r[i])
  {
    if |bs| == 0 then []
    else ['%', HexDigit(bs[0] / 16), HexDigit(bs[0] % 16)] + Escape(bs[1..])
  }

  /** Reads `n` escapes `%XY` from the start of `t`. */
  function ReadEscapes(t: string, n: nat): (r: Option<seq<Byte>>)
    ensures r.Some? ==> |r.value| == n && 3 * n <= |t|
  {
    if n == 0 then Some([])
    else if |t| >= 3 && t[0] == '%' && HexValue(t[1]).Some? && HexValue(t[2]).Some? then
      match ReadEscapes(t[3..], n - 1)
      case None => None
      case Some(rest) => Some([HexValue(t[1]).value * 16 + HexValue(t[2]).value] + rest)
    else None
  }

  /** The first `k` escapes of an escaped byte string read back as its
      first `k` bytes. */
  lemma {:induction false} ReadEscapesOfEscape(bs: seq<Byte>, rest: string, k: nat)
    requires k <= |bs|
    ensures ReadEscapes(Escape(bs) + rest, k) == Some(bs[..k])
    decreases k
  {
    if k > 0 {
      var t := Escape(bs) + rest;
      assert t[..3] == ['%', HexDigit(bs[0] / 16), HexDigit(bs[0] % 16)];
      assert t[3..] == Escape(bs[1..]) + rest;
      HexDigitValue(bs[0] / 16);
      HexDigitValue(bs[0] % 16);
      ReadEscapesOfEscape(bs[1..], rest, k - 1);
      assert bs[..k] == [bs[0]] + bs[1..][..k - 1];
    }
  }

  // ---------------------------------------------------------------------
  // Components
  // ---------------------------------------------------------------------

  function EncodeChar(c: char): string {
    if IsUnescaped(c) then [c] else Escape(Utf8(c))
  }

  /** A character that may appear in an encoded component. */
  predicate IsComponentChar(c: char) {
    IsUnescaped(c) || c == '%' || IsUpperHex(c)
  }

  /** `encodeURIComponent(s)`. Its output holds no delimiter of a query:
      no `&`, `=`, `#`, `?`, `+` and no space. */
  function Encode(s: string): (r: string)
    ensures |r| >= |s|
    ensures forall i :: 0 <= i < |r| ==> IsComponentChar(r[i])
    ensures '&' !in r && '=' !in r && '#' !in r && '?' !in r && '+' !in r && ' ' !in r
  {
    if |s| == 0 then []
    else
      var head, tail := EncodeChar(s[0]), Encode(s[1..]);
      EncodeCharComponents(s[0]);
      ComponentsConcat(head, tail);
      head + tail
  }

  /** One encoded character is at least one component character. */
  lemma EncodeCharComponents(c: char)
    ensures |EncodeChar(c)| >= 1
    ensures forall i :: 0 <= i < |EncodeChar(c)| ==> IsComponentChar(EncodeChar(c)[i])
  {
  }

  /** Component characters stay so when two texts are concatenated, and
      none of them is a query delimiter. */
  lemma ComponentsConcat(a: string, b: string)
    requires forall i :: 0 <= i < |a| ==> IsComponentChar(a[i])
    requires forall i :: 0 <= i < |b| ==> IsComponentChar(b[i])
    ensures forall i :: 0 <= i < |a + b| ==> IsComponentChar((a + b)[i])
    ensures '&' !in a + b && '=' !in a + b && '#' !in a + b && '?' !in a + b && '+' !in a + b && ' ' !in a + b
  {
    forall i | 0 <= i < |a + b|
      ensures IsComponentChar((a + b)[i])
    {
      if i < |a| {
        assert (a + b)[i] == a[i];
      } else {
        assert (a + b)[i] == b[i - |a|];
      }
    }
  }

  function Prepend(c: char, o: Option<string>): Option<string> {
    match o
    case None => None
    case Some(s) => Some([c] + s)
  }

  /** `decodeURIComponent(t)`, with None where it throws `URIError`. */
  function Decode(t: string): (r: Option<string>)
    decreases |t|
  {
    if |t| == 0 then Some([])
    else if t[0] != '%' then Prepend(t[0], Decode(t[1..]))
    else
      match ReadEscapes(t, 1)
      case None => None
      case Some(lead) =>
        var n := SequenceLength(lead[0]);
        if n == 0 then None
        else
          match ReadEscapes(t, n)
          case None => None
          case Some(bs) =>
            match DecodeUtf8(bs)
            case None => None
            case Some(c) => Prepend(c, Decode(t[3 * n..]))
  }

  /** Decoding consumes exactly the encoding of one character. */
  lemma DecodeStep(c: char, rest: string)
    ensures Decode(EncodeChar(c) + rest) == Prepend(c, Decode(rest))
  {
    var t := EncodeChar(c) + rest;
    if IsUnescaped(c) {
      assert t[1..] == rest;
    } else {
      var bs := Utf8(c);
      assert t == Escape(bs) + rest;
      ReadEscapesOfEscape(bs, rest, 1);
      ReadEscapesOfEscape(bs, rest, |bs|);
      assert bs[..|bs|] == bs;
      assert bs[..1] == [bs[0]];
      Utf8RoundTrip(c);
      assert t[3 * |bs|..] == rest;
    }
  }

  /** `decodeURIComponent(encodeURIComponent(s)) === s`. */
  lemma {:induction false} DecodeEncode(s: string)
    ensures Decode(Encode(s)) == Some(s)
  {
    if |s| > 0 {
      DecodeEncode(s[1..]);
      DecodeEncodeStep(s[0], s[1..]);
      assert [s[0]] + s[1..] == s;
    }
  }

  lemma DecodeEncodeStep(c: char, rest: string)
    requires Decode(Encode(rest)) == Some(rest)
    ensures Decode(Encode([c] + rest)) == Some([c] + rest)
  {
    assert ([c] + rest)[1..] == rest;
    assert Encode([c] + rest) == EncodeChar(c) + Encode(rest);
    DecodeStep(c, Encode(rest));
  }
}
