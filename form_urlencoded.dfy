/** The `application/x-www-form-urlencoded` serializer of the WHATWG URL Standard (section 5.2),
    which `URLSearchParams.prototype.toString` applies to the request parameters, together with
    the matching parser, so that the query a request carries can be read back exactly. */
module FormUrlEncoded {
  import opened Common

  newtype byte = b: int | 0 <= b < 256

  /** A Unicode scalar value, which is what a `char` holds. */
  predicate IsScalar(n: int) {
    (0 <= n < 0xD800) || (0xE000 <= n < 0x11_0000)
  }

  lemma CharIsScalar(c: char)
    ensures IsScalar(c as int)
  {
  }

  predicate IsContinuation(b: byte) {
    0x80 <= b < 0xC0
  }

  /** UTF-8 encoding of one character (section 3 of RFC 3629). */
  function Utf8(c: char): (bs: seq<byte>)
    ensures 1 <= |bs| <= 4
    ensures |bs| == 1 <==> c as int < 0x80
    ensures |bs| == 1 ==> bs[0] as int == c as int
    ensures |bs| > 1 ==> 0xC0 <= bs[0] && forall i :: 1 <= i < |bs| ==> IsContinuation(bs[i])
  {
    var n := c as int;
    CharIsScalar(c);
    if n < 0x80 then [n as byte]
    else if n < 0x800 then [(0xC0 + n / 64) as byte, (0x80 + n % 64) as byte]
    else if n < 0x1_0000 then
      [(0xE0 + n / 4096) as byte, (0x80 + (n / 64) % 64) as byte, (0x80 + n % 64) as byte]
    else
      [(0xF0 + n / 262144) as byte, (0x80 + (n / 4096) % 64) as byte,
       (0x80 + (n / 64) % 64) as byte, (0x80 + n % 64) as byte]
  }

  function Utf8Bytes(s: string): (bs: seq<byte>)
    ensures |bs| >= |s|
  {
    if s == [] then [] else Utf8(s[0]) + Utf8Bytes(s[1..])
  }

  /** The number of bytes of the UTF-8 sequence a lead byte starts, or 0 for a byte that
      cannot start one. */
  function SequenceLength(lead: byte): nat {
    if lead < 0x80 then 1
    else if 0xC0 <= lead < 0xE0 then 2
    else if 0xE0 <= lead < 0xF0 then 3
    else if 0xF0 <= lead < 0xF8 then 4
    else 0
  }

  /** The code point a complete UTF-8 sequence of `SequenceLength(bs[0])` bytes denotes. */
  function CodePoint(bs: seq<byte>): int
    requires 1 <= |bs| && SequenceLength(bs[0]) == |bs|
  {
    if |bs| == 1 then bs[0] as int
    else if |bs| == 2 then (bs[0] as int - 0xC0) * 64 + (bs[1] as int - 0x80)
    else if |bs| == 3 then
      (bs[0] as int - 0xE0) * 4096 + (bs[1] as int - 0x80) * 64 + (bs[2] as int - 0x80)
    else
      (bs[0] as int - 0xF0) * 262144 + (bs[1] as int - 0x80) * 4096
        + (bs[2] as int - 0x80) * 64 + (bs[3] as int - 0x80)
  }

  /** UTF-8 decoding; `None` for a byte sequence that does not decode. */
  function Utf8Decode(bs: seq<byte>): (r: Option<string>)
    decreases |bs|
  {
    if bs == [] then Some([])
    else
      var k := SequenceLength(bs[0]);
      if k == 0 || |bs| < k then None
      else if exists i :: 1 <= i < k && !IsContinuation(bs[i]) then None
      else
        var n := CodePoint(bs[..k]);
        if !IsScalar(n) then None
        else match Utf8Decode(bs[k..])
          case None => None
          case Some(rest) => Some([n as char] + rest)
  }

  /** Splitting a number into base-64 digits and joining them again gives it back. */
  lemma Base64Digits(n: int)
    requires 0 <= n
    ensures n == (n / 64) * 64 + n % 64 && 0 <= n % 64 < 64
    ensures n / 4096 == (n / 64) / 64 && n / 262144 == (n / 4096) / 64
  {
  }

  lemma Utf8CharDecodes(c: char)
    ensures SequenceLength(Utf8(c)[0]) == |Utf8(c)|
    ensures CodePoint(Utf8(c)) == c as int
  {
    var n := c as int;
    CharIsScalar(c);
    Base64Digits(n);
    Base64Digits(n / 64);
    Base64Digits(n / 4096);
    var bs := Utf8(c);
    if n < 0x80 {
    } else if n < 0x800 {
      assert bs[0] as int - 0xC0 == n / 64 && bs[1] as int - 0x80 == n % 64;
    } else if n < 0x1_0000 {
      assert bs[0] as int - 0xE0 == n / 4096;
      assert bs[1] as int - 0x80 == (n / 64) % 64 && bs[2] as int - 0x80 == n % 64;
      assert n == (n / 4096) * 4096 + ((n / 64) % 64) * 64 + n % 64;
    } else {
      assert bs[0] as int - 0xF0 == n / 262144;
      assert bs[1] as int - 0x80 == (n / 4096) % 64;
      assert bs[2] as int - 0x80 == (n / 64) % 64 && bs[3] as int - 0x80 == n % 64;
      assert n == (n / 262144) * 262144 + ((n / 4096) % 64) * 4096
                  + ((n / 64) % 64) * 64 + n % 64;
    }
  }

  /** Decoding the UTF-8 bytes of a string gives the string back. */
  lemma {:induction false} Utf8RoundTrip(s: string)
    ensures Utf8Decode(Utf8Bytes(s)) == Some(s)
  {
    if s != [] {
      var c := s[0];
      var head := Utf8(c);
      var bs := Utf8Bytes(s);
      assert bs == head + Utf8Bytes(s[1..]);
      Utf8CharDecodes(c);
      var k := |head|;
      assert bs[..k] == head;
      assert bs[k..] == Utf8Bytes(s[1..]);
      assert forall i :: 1 <= i < k ==> IsContinuation(bs[i]);
      CharIsScalar(c);
      Utf8RoundTrip(s[1..]);
      assert [c] + s[1..] == s;
    }
  }

  /** The bytes the serializer leaves as they are: ASCII letters, digits and `*-._`. */
  predicate Unreserved(b: byte) {
    || (0x30 <= b <= 0x39) || (0x41 <= b <= 0x5A) || (0x61 <= b <= 0x7A)
    || b == 0x2A || b == 0x2D || b == 0x2E || b == 0x5F
  }

  function HexDigit(d: int): (c: char)
    requires 0 <= d < 16
    ensures HexValue(c) == d
  {
    "0123456789ABCDEF"[d]
  }

  /** The value of a hexadecimal digit of either case, -1 for any other character. */
  function HexValue(c: char): int {
    if '0' <= c <= '9' then c as int - '0' as int
    else if 'A' <= c <= 'F' then c as int - 'A' as int + 10
    else if 'a' <= c <= 'f' then c as int - 'a' as int + 10
    else -1
  }

  /** The characters a serialized query is made of. */
  predicate QueryChar(c: char) {
    || ('0' <= c <= '9') || ('A' <= c <= 'Z') || ('a' <= c <= 'z')
    || c == '*' || c == '-' || c == '.' || c == '_' || c == '%' || c == '+'
  }

  /** One byte as the serializer writes it: a space as `+`, an unreserved byte as itself, and
      every other byte as `%` and two upper-case hexadecimal digits. */
  function EncodeByte(b: byte): (t: string)
    ensures t != [] && forall c :: c in t ==> QueryChar(c)
    ensures b == 0x20 <==> t == "+"
    ensures Unreserved(b) <==> t == [b as int as char]
  {
    if b == 0x20 then "+"
    else if Unreserved(b) then [b as int as char]
    else ['%', HexDigit(b as int / 16), HexDigit(b as int % 16)]
  }

  function EncodeBytes(bs: seq<byte>): (t: string)
    ensures forall c :: c in t ==> QueryChar(c)
  {
    if bs == [] then [] else EncodeByte(bs[0]) + EncodeBytes(bs[1..])
  }

  /** The serialization of one name or value. It never contains the separators `&` and `=`. */
  function Encode(s: string): (t: string)
    ensures forall c :: c in t ==> QueryChar(c)
    ensures '&' !in t && '=' !in t
  {
    EncodeBytes(Utf8Bytes(s))
  }

  /** Percent-decoding with `+` read as a space; `None` for a character the serializer never
      writes. */
  function DecodeBytes(t: string): (r: Option<seq<byte>>)
    decreases |t|
  {
    if t == [] then Some([])
    else if t[0] == '+' then Prepend(0x20, DecodeBytes(t[1..]))
    else if t[0] == '%' then
      if |t| >= 3 && HexValue(t[1]) >= 0 && HexValue(t[2]) >= 0 then
        Prepend((HexValue(t[1]) * 16 + HexValue(t[2])) as byte, DecodeBytes(t[3..]))
      else None
    else if t[0] as int < 0x80 then Prepend(t[0] as int as byte, DecodeBytes(t[1..]))
    else None
  }

  function Prepend(b: byte, r: Option<seq<byte>>): Option<seq<byte>> {
    match r
    case None => None
    case Some(bs) => Some([b] + bs)
  }

  lemma DecodeEncodedByte(b: byte, rest: string)
    ensures DecodeBytes(EncodeByte(b) + rest) == Prepend(b, DecodeBytes(rest))
  {
    var t := EncodeByte(b) + rest;
    if b == 0x20 {
      assert t[1..] == rest;
    } else if Unreserved(b) {
      assert t[1..] == rest;
    } else {
      assert t[3..] == rest;
    }
  }

  lemma {:induction false} DecodeEncodedBytes(bs: seq<byte>)
    ensures DecodeBytes(EncodeBytes(bs)) == Some(bs)
  {
    if bs != [] {
      DecodeEncodedByte(bs[0], EncodeBytes(bs[1..]));
      DecodeEncodedBytes(bs[1..]);
      assert [bs[0]] + bs[1..] == bs;
    }
  }

  /** Reading back one serialized name or value. */
  function Decode(t: string): Option<string> {
    match DecodeBytes(t)
    case None => None
    case Some(bs) => Utf8Decode(bs)
  }

  /** Every string is read back from its serialization. */
  lemma EncodeRoundTrip(s: string)
    ensures Decode(Encode(s)) == Some(s)
  {
    DecodeEncodedBytes(Utf8Bytes(s));
    Utf8RoundTrip(s);
  }

  /** A string of letters, digits and `*-._` is serialized unchanged. */
  lemma {:induction false} UnreservedUnchanged(s: string)
    requires forall i :: 0 <= i < |s| ==> s[i] as int < 0x80 && Unreserved(s[i] as int as byte)
    ensures Encode(s) == s
  {
    if s != [] {
      UnreservedUnchanged(s[1..]);
      assert [s[0]] + s[1..] == s;
    }
  }

  /** `name=value` pairs joined by `&`, in order. */
  function Serialize(pairs: seq<(string, string)>): (q: string)
    ensures pairs == [] <==> q == []
  {
    if pairs == [] then []
    else if |pairs| == 1 then Encode(pairs[0].0) + "=" + Encode(pairs[0].1)
    else Encode(pairs[0].0) + "=" + Encode(pairs[0].1) + "&" + Serialize(pairs[1..])
  }

  /** The index of the first `c` in `s`, or -1. */
  function IndexOf(s: string, c: char): (i: int)
    ensures -1 <= i < |s|
    ensures i >= 0 ==> s[i] == c && c !in s[..i]
    ensures i < 0 ==> c !in s
  {
    if s == [] then -1
    else if s[0] == c then 0
    else
      var j := IndexOf(s[1..], c);
      if j < 0 then -1 else j + 1
  }

  lemma IndexOfAfter(p: string, c: char, rest: string)
    requires c !in p
    ensures IndexOf(p + [c] + rest, c) == |p|
  {
    if p != [] {
      assert (p + [c] + rest)[1..] == p[1..] + [c] + rest;
      IndexOfAfter(p[1..], c, rest);
    }
  }

  /** A query split at every `&`. */
  function Split(s: string): (parts: seq<string>)
    ensures |parts| >= 1
    decreases |s|
  {
    var i := IndexOf(s, '&');
    if i < 0 then [s] else [s[..i]] + Split(s[i + 1..])
  }

  /** One `name=value` part read back; the name ends at the first `=`. */
  function ParsePair(part: string): Option<(string, string)> {
    var i := IndexOf(part, '=');
    var name := if i < 0 then part else part[..i];
    var value := if i < 0 then [] else part[i + 1..];
    match (Decode(name), Decode(value))
    case (Some(n), Some(v)) => Some((n, v))
    case _ => None
  }

  function ParseParts(parts: seq<string>): Option<seq<(string, string)>> {
    if parts == [] then Some([])
    else match (ParsePair(parts[0]), ParseParts(parts[1..]))
      case (Some(p), Some(ps)) => Some([p] + ps)
      case _ => None
  }

  /** The form-urlencoded parser, restricted to what the serializer writes. */
  function Parse(q: string): Option<seq<(string, string)>> {
    if q == [] then Some([]) else ParseParts(Split(q))
  }

  lemma ParsePairOfEncoded(name: string, value: string)
    ensures ParsePair(Encode(name) + "=" + Encode(value)) == Some((name, value))
  {
    var part := Encode(name) + "=" + Encode(value);
    IndexOfAfter(Encode(name), '=', Encode(value));
    assert part[..|Encode(name)|] == Encode(name);
    assert part[|Encode(name)| + 1..] == Encode(value);
    EncodeRoundTrip(name);
    EncodeRoundTrip(value);
  }

  /** The serialized query splits back into one part per pair. */
  lemma {:induction false} SplitSerialized(pairs: seq<(string, string)>)
    requires pairs != []
    ensures Split(Serialize(pairs)) == EncodedParts(pairs)
  {
    var head := Encode(pairs[0].0) + "=" + Encode(pairs[0].1);
    assert '&' !in head;
    if |pairs| == 1 {
      assert IndexOf(head, '&') < 0;
    } else {
      var q := Serialize(pairs);
      assert q == head + "&" + Serialize(pairs[1..]);
      IndexOfAfter(head, '&', Serialize(pairs[1..]));
      assert q[..|head|] == head;
      assert q[|head| + 1..] == Serialize(pairs[1..]);
      SplitSerialized(pairs[1..]);
    }
  }

  /** The `name=value` part each pair is serialized to. */
  function EncodedParts(pairs: seq<(string, string)>): (parts: seq<string>)
    ensures |parts| == |pairs|
  {
    if pairs == [] then [] else [Encode(pairs[0].0) + "=" + Encode(pairs[0].1)] + EncodedParts(pairs[1..])
  }

  lemma {:induction false} ParsePartsOfEncoded(pairs: seq<(string, string)>)
    ensures ParseParts(EncodedParts(pairs)) == Some(pairs)
  {
    if pairs != [] {
      var parts := EncodedParts(pairs);
      ParsePairOfEncoded(pairs[0].0, pairs[0].1);
      assert parts[1..] == EncodedParts(pairs[1..]);
      ParsePartsOfEncoded(pairs[1..]);
      assert [pairs[0]] + pairs[1..] == pairs;
    }
  }

  /** The parser reads every serialized list of pairs back exactly, names, values and order. */
  lemma ParseSerializeRoundTrip(pairs: seq<(string, string)>)
    ensures Parse(Serialize(pairs)) == Some(pairs)
  {
    if pairs != [] {
      SplitSerialized(pairs);
      ParsePartsOfEncoded(pairs);
    }
  }
}
