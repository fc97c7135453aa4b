/**
  The ECMAScript `encodeURIComponent` function (ECMA-262, section 19.2.6, URI
  Handling Functions) over Unicode scalar values: every character outside the
  unreserved set is written as its UTF-8 octets, each as `%` and two upper-case
  hexadecimal digits.  `DecodeURIComponent` is the standard's inverse
  (`decodeURIComponent`) and serves as the partner the encoder is proved against.
*/
module UriComponent {
  import opened Wrappers

  /** One octet of a UTF-8 encoding. */
  type Byte = b: int | 0 <= b < 256

  /** The characters `encodeURIComponent` leaves as they are: ASCII letters,
      decimal digits and the marks - _ . ! ~ * ' ( ) */
  predicate IsUnreserved(c: char) {
    || 'A' <= c <= 'Z'
    || 'a' <= c <= 'z'
    || '0' <= c <= '9'
    || c in "-_.!~*'()"
  }

  /** The octets a UTF-8 sequence has, read from its leading octet (0: the octet cannot lead). */
  function LeadLength(b: Byte): nat {
    if b < 0x80 then 1
    else if 0xC0 <= b < 0xE0 then 2
    else if 0xE0 <= b < 0xF0 then 3
    else if 0xF0 <= b < 0xF8 then 4
    else 0
  }

  predicate IsContinuation(b: Byte) {
    0x80 <= b < 0xC0
  }

  /** A well-formed UTF-8 sequence for one code point: the leading octet announces
      the length and every later octet is a continuation octet. */
  predicate IsScalarSequence(bs: seq<Byte>) {
    && |bs| > 0
    && LeadLength(bs[0]) == |bs|
    && forall i | 1 <= i < |bs| :: IsContinuation(bs[i])
  }

  /** The UTF-8 encoding of one character, six bits at a time from the low end. */
  function Utf8(c: char): (bs: seq<Byte>)
    ensures IsScalarSequence(bs)
    ensures |bs| == 1 <==> c as int < 0x80
  {
    var cp := c as int;
    var q1 := cp / 64;
    var q2 := q1 / 64;
    var q3 := q2 / 64;
    if cp < 0x80 then [cp]
    else if cp < 0x800 then [0xC0 + q1, 0x80 + cp % 64]
    else if cp < 0x10000 then [0xE0 + q2, 0x80 + q1 % 64, 0x80 + cp % 64]
    else [0xF0 + q3, 0x80 + q2 % 64, 0x80 + q1 % 64, 0x80 + cp % 64]
  }

  /** The smallest code point that needs `n` octets; a smaller one is an overlong encoding. */
  function MinCodePoint(n: nat): int {
    if n <= 1 then 0 else if n == 2 then 0x80 else if n == 3 then 0x800 else 0x10000
  }

  /** Decodes one complete UTF-8 sequence, rejecting malformed, overlong,
      surrogate and out-of-range encodings as `decodeURIComponent` does. */
  function DecodeScalar(bs: seq<Byte>): (r: Option<char>)
    ensures r.Some? ==> IsScalarSequence(bs)
  {
    if !IsScalarSequence(bs) then None
    else
      var b: seq<int> := bs;
      var cp :=
        if |b| == 1 then b[0]
        else if |b| == 2 then (b[0] - 0xC0) * 64 + (b[1] - 0x80)
        else if |b| == 3 then ((b[0] - 0xE0) * 64 + (b[1] - 0x80)) * 64 + (b[2] - 0x80)
        else (((b[0] - 0xF0) * 64 + (b[1] - 0x80)) * 64 + (b[2] - 0x80)) * 64 + (b[3] - 0x80);
      if cp < MinCodePoint(|bs|) || 0xD800 <= cp < 0xE000 || 0x110000 <= cp then None
      else Some(cp as char)
  }

  lemma Utf8RoundTrip(c: char)
    ensures DecodeScalar(Utf8(c)) == Some(c)
  {
    var cp := c as int;
    var q1 := cp / 64;
    var q2 := q1 / 64;
    var q3 := q2 / 64;
    assert cp == q1 * 64 + cp % 64;
    assert q1 == q2 * 64 + q1 % 64;
    assert q2 == q3 * 64 + q2 % 64;
  }

  function HexDigit(n: int): (c: char)
    requires 0 <= n < 16
    ensures IsUnreserved(c)
  {
    if n < 10 then ('0' as int + n) as char else ('A' as int + n - 10) as char
  }

  /** The value of a hexadecimal digit of either case. */
  function HexValue(c: char): (r: Option<int>)
    ensures r.Some? ==> 0 <= r.value < 16
  {
    if '0' <= c <= '9' then Some(c as int - '0' as int)
    else if 'A' <= c <= 'F' then Some(c as int - 'A' as int + 10)
    else if 'a' <= c <= 'f' then Some(c as int - 'a' as int + 10)
    else None
  }

  lemma HexRoundTrip(n: int)
    requires 0 <= n < 16
    ensures HexValue(HexDigit(n)) == Some(n)
  {
  }

  /** Each octet written as `%` and two upper-case hexadecimal digits. */
  function Percent(bs: seq<Byte>): (s: string)
    ensures |s| == 3 * |bs|
    ensures forall i | 0 <= i < |s| :: IsUnreserved(s[i]) || s[i] == '%'
  {
    if bs == [] then []
    else ['%', HexDigit(bs[0] / 16), HexDigit(bs[0] % 16)] + Percent(bs[1..])
  }

  function EncodeChar(c: char): string {
    if IsUnreserved(c) then [c] else Percent(Utf8(c))
  }

  /** `encodeURIComponent`: the result holds only unreserved characters and `%`,
      so it cannot end or split a URI component (no `&`, `=`, `#`, `?`, `/` or space). */
  function EncodeURIComponent(s: string): (r: string)
    ensures forall i | 0 <= i < |r| :: IsUnreserved(r[i]) || r[i] == '%'
    ensures |s| <= |r| <= 12 * |s|
  {
    if s == [] then [] else EncodeChar(s[0]) + EncodeURIComponent(s[1..])
  }

  /** A string of unreserved characters is its own encoding. */
  lemma {:induction false} UnreservedUnchanged(s: string)
    requires forall i | 0 <= i < |s| :: IsUnreserved(s[i])
    ensures EncodeURIComponent(s) == s
  {
    if s != [] {
      assert IsUnreserved(s[0]);
      UnreservedUnchanged(s[1..]);
      assert [s[0]] + s[1..] == s;
    }
  }

  /** Reads `n` percent-escaped octets from the front of `s`. */
  function ReadOctets(s: string, n: nat): (r: Option<seq<Byte>>)
    ensures r.Some? ==> |r.value| == n && |s| >= 3 * n
  {
    if n == 0 then Some([])
    else if |s| < 3 || s[0] != '%' then None
    else match (HexValue(s[1]), HexValue(s[2]))
      case (Some(hi), Some(lo)) =>
        (match ReadOctets(s[3..], n - 1)
         case Some(rest) => Some([hi * 16 + lo] + rest)
         case None => None)
      case _ => None
  }

  function Prepend(c: char, r: Option<string>): Option<string> {
    match r
    case Some(t) => Some([c] + t)
    case None => None
  }

  /** `decodeURIComponent`: characters other than `%` stand for themselves; an
      escape sequence holds the UTF-8 octets of one code point; anything
      malformed is an error (the standard's URIError), here `None`. */
  function DecodeURIComponent(s: string): Option<string>
    decreases |s|
  {
    if s == [] then Some([])
    else if s[0] != '%' then Prepend(s[0], DecodeURIComponent(s[1..]))
    else match ReadOctets(s, 1)
      case None => None
      case Some(lead) =>
        var n := LeadLength(lead[0]);
        if n == 0 then None
        else match ReadOctets(s, n)
          case None => None
          case Some(bs) =>
            match DecodeScalar(bs)
            case None => None
            case Some(c) => Prepend(c, DecodeURIComponent(s[3 * n..]))
  }

  lemma {:induction false} ReadPercent(bs: seq<Byte>, rest: string, k: nat)
    requires k <= |bs|
    ensures ReadOctets(Percent(bs) + rest, k) == Some(bs[..k])
  {
    if k > 0 {
      var s := Percent(bs) + rest;
      var b := bs[0];
      HexRoundTrip(b / 16);
      HexRoundTrip(b % 16);
      assert s[1] == HexDigit(b / 16) && s[2] == HexDigit(b % 16);
      assert s[3..] == Percent(bs[1..]) + rest;
      ReadPercent(bs[1..], rest, k - 1);
      assert bs[..k] == [b] + bs[1..][..k - 1];
    }
  }

  lemma DecodeEncodeChar(c: char, rest: string)
    ensures DecodeURIComponent(EncodeChar(c) + rest) == Prepend(c, DecodeURIComponent(rest))
  {
    var s := EncodeChar(c) + rest;
    if IsUnreserved(c) {
      assert s[0] == c && s[1..] == rest;
    } else {
      var bs := Utf8(c);
      assert s == Percent(bs) + rest;
      assert s[0] == '%';
      ReadPercent(bs, rest, 1);
      ReadPercent(bs, rest, |bs|);
      assert bs[..|bs|] == bs;
      Utf8RoundTrip(c);
      assert s[3 * |bs|..] == rest;
    }
  }

  /** Decoding undoes encoding: the receiver of the component reads back exactly
      the string that was encoded. */
  lemma {:induction false} DecodeEncode(s: string)
    ensures DecodeURIComponent(EncodeURIComponent(s)) == Some(s)
  {
    if s != [] {
      DecodeEncode(s[1..]);
      DecodeEncodeChar(s[0], EncodeURIComponent(s[1..]));
      assert [s[0]] + s[1..] == s;
    }
  }

  /** Different strings never share an encoding. */
  lemma EncodeInjective(s: string, t: string)
    requires EncodeURIComponent(s) == EncodeURIComponent(t)
    ensures s == t
  {
    DecodeEncode(s);
    DecodeEncode(t);
  }
}
