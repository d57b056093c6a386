/** Percent-encoding as the application uses it: `encodeURIComponent`
    (ECMA-262, section 19.2.6.5: the UTF-8 bytes of every character outside a
    small unreserved set are written as "%XY", as in section 2.1 of RFC 3986)
    and the application/x-www-form-urlencoded serializer behind
    `URLSearchParams.prototype.toString` (WHATWG URL Standard, section 5.2).
    The parser of section 5.1 of the same standard is the partner that reads
    such text back. */
module UriEncoding {
  import opened Common
  import opened Text

  type byte = b: int | 0 <= b < 256

  /** The UTF-8 encoding of one Unicode scalar value. */
  function Utf8(c: char): (bs: seq<byte>)
    ensures 1 <= |bs| <= 4
    ensures |bs| == 1 <==> c as int < 0x80
    ensures |bs| == 1 ==> bs[0] == c as int
  {
    var v := c as int;
    if v < 0x80 then [v as byte]
    else if v < 0x800 then [(0xC0 + v / 64) as byte, (0x80 + v % 64) as byte]
    else if v < 0x10000 then
      [(0xE0 + v / 4096) as byte, (0x80 + (v / 64) % 64) as byte, (0x80 + v % 64) as byte]
    else
      [(0xF0 + v / 262144) as byte, (0x80 + (v / 4096) % 64) as byte,
       (0x80 + (v / 64) % 64) as byte, (0x80 + v % 64) as byte]
  }

  function Utf8Encode(s: string): seq<byte>
  {
    if s == [] then [] else Utf8(s[0]) + Utf8Encode(s[1..])
  }

  predicate IsContinuation(b: byte) { 0x80 <= b < 0xC0 }

  /** The length of the UTF-8 sequence a leading byte announces, 0 for a byte
      that cannot start one. */
  function SequenceLength(b: byte): nat
  {
    if b < 0x80 then 1
    else if 0xC0 <= b < 0xE0 then 2
    else if 0xE0 <= b < 0xF0 then 3
    else if 0xF0 <= b < 0xF8 then 4
    else 0
  }

  /** The code point a complete UTF-8 sequence carries. */
  function CodePoint(bs: seq<byte>): int
    requires 1 <= |bs| <= 4
  {
    var b0, b1, b2, b3 := bs[0] as int, Get(bs, 1), Get(bs, 2), Get(bs, 3);
    if |bs| == 1 then b0
    else if |bs| == 2 then (b0 - 0xC0) * 64 + (b1 - 0x80)
    else if |bs| == 3 then (b0 - 0xE0) * 4096 + (b1 - 0x80) * 64 + (b2 - 0x80)
    else (b0 - 0xF0) * 262144 + (b1 - 0x80) * 4096 + (b2 - 0x80) * 64 + (b3 - 0x80)
  }

  function Get(bs: seq<byte>, i: nat): int
  {
    if i < |bs| then bs[i] else 0
  }

  predicate IsScalarValue(v: int)
  {
    0 <= v < 0xD800 || 0xE000 <= v <= 0x10FFFF
  }

  function Prepend<T>(xs: seq<T>, rest: Option<seq<T>>): Option<seq<T>>
  {
    match rest
    case None => None
    case Some(ys) => Some(xs + ys)
  }

  /** Decodes UTF-8 bytes to text, or `None` when they encode no text. */
  function Utf8Decode(bs: seq<byte>): Option<string>
    decreases |bs|
  {
    if bs == [] then Some([])
    else
      var n := SequenceLength(bs[0]);
      if n == 0 || |bs| < n then None
      else if !(forall k | 1 <= k < n :: IsContinuation(bs[k])) then None
      else
        var v := CodePoint(bs[..n]);
        if !IsScalarValue(v) then None
        else Prepend([v as char], Utf8Decode(bs[n..]))
  }

  /** The bytes of `c` form one complete sequence that carries `c`. */
  lemma Utf8Sequence(c: char)
    ensures SequenceLength(Utf8(c)[0]) == |Utf8(c)|
    ensures forall k | 1 <= k < |Utf8(c)| :: IsContinuation(Utf8(c)[k])
    ensures CodePoint(Utf8(c)) == c as int
  {
    var v := c as int;
    if v >= 0x800 {
      DivMod64(v);
      if v >= 0x10000 {
        DivMod64(v / 64);
        assert v / 4096 == (v / 64) / 64;
        assert v / 262144 == (v / 4096) / 64;
      } else {
        assert v / 4096 == (v / 64) / 64;
      }
    }
  }

  lemma DivMod64(v: nat)
    ensures v == (v / 64) * 64 + v % 64
    ensures (v / 64) == ((v / 64) / 64) * 64 + (v / 64) % 64
  {
  }

  /** Decoding the bytes of one character yields that character first. */
  lemma Utf8DecodeChar(c: char, rest: seq<byte>)
    ensures Utf8Decode(Utf8(c) + rest) == Prepend([c], Utf8Decode(rest))
  {
    var bs := Utf8(c) + rest;
    var n := |Utf8(c)|;
    Utf8Sequence(c);
    assert bs[0] == Utf8(c)[0];
    assert bs[..n] == Utf8(c);
    assert bs[n..] == rest;
    assert forall k | 1 <= k < n :: IsContinuation(bs[k]) by {
      forall k | 1 <= k < n ensures IsContinuation(bs[k]) {
        assert bs[k] == Utf8(c)[k];
      }
    }
    assert (c as int) as char == c;
  }

  /** UTF-8 decoding undoes UTF-8 encoding. */
  lemma {:induction false} Utf8RoundTrip(s: string)
    ensures Utf8Decode(Utf8Encode(s)) == Some(s)
  {
    if s != [] {
      Utf8DecodeChar(s[0], Utf8Encode(s[1..]));
      Utf8RoundTrip(s[1..]);
      assert [s[0]] + s[1..] == s;
    }
  }

  /** The two percent-encode sets the application uses. */
  datatype EncodeSet =
    | ComponentSet  // encodeURIComponent
    | FormSet       // application/x-www-form-urlencoded

  predicate IsAsciiAlphanumeric(c: char)
  {
    '0' <= c <= '9' || 'a' <= c <= 'z' || 'A' <= c <= 'Z'
  }

  /** Characters that the set leaves as they are. */
  predicate Unreserved(es: EncodeSet, c: char)
  {
    IsAsciiAlphanumeric(c) ||
    match es
    case ComponentSet =>
      c == '-' || c == '_' || c == '.' || c == '!' || c == '~' || c == '*' || c == '\'' || c == '(' || c == ')'
    case FormSet => c == '*' || c == '-' || c == '.' || c == '_'
  }

  function HexDigitUpper(d: nat): (c: char)
    requires d < 16
    ensures IsRadixDigit(c, 16) && CharValue(c) == d
  {
    if d < 10 then DigitChar(d) else (d - 10 + 'A' as int) as char
  }

  function PercentByte(b: byte): string
  {
    ['%', HexDigitUpper(b / 16), HexDigitUpper(b % 16)]
  }

  function PercentBytes(bs: seq<byte>): string
  {
    if bs == [] then [] else PercentByte(bs[0]) + PercentBytes(bs[1..])
  }

  function EncodeChar(es: EncodeSet, c: char): string
  {
    if Unreserved(es, c) then [c]
    else if es == FormSet && c == ' ' then "+"
    else PercentBytes(Utf8(c))
  }

  /** Percent-encodes `s` with the given set; the form set writes a space as "+". */
  function Encode(es: EncodeSet, s: string): string
  {
    if s == [] then [] else EncodeChar(es, s[0]) + Encode(es, s[1..])
  }

  /** `encodeURIComponent(s)`. Text here holds Unicode scalar values only, so
      the lone-surrogate error of the original cannot arise. */
  function EncodeUriComponent(s: string): string
  {
    Encode(ComponentSet, s)
  }

  /** Characters that can appear in percent-encoded text. */
  predicate IsEncodedChar(c: char)
  {
    IsAsciiAlphanumeric(c) || c == '-' || c == '_' || c == '.' || c == '!' || c == '~' || c == '*' ||
    c == '\'' || c == '(' || c == ')' || c == '%' || c == '+'
  }

  /** Percent-encoded text never contains a URL delimiter such as "?", "&",
      "=" or "#": it stays within one query parameter. */
  lemma {:induction false} EncodeIsSafe(es: EncodeSet, s: string)
    ensures forall i | 0 <= i < |Encode(es, s)| :: IsEncodedChar(Encode(es, s)[i])
  {
    if s != [] {
      EncodeIsSafe(es, s[1..]);
      var head := EncodeChar(es, s[0]);
      PercentBytesSafe(Utf8(s[0]));
      assert forall i | 0 <= i < |head| :: IsEncodedChar(head[i]);
    }
  }

  lemma {:induction false} PercentBytesSafe(bs: seq<byte>)
    ensures forall i | 0 <= i < |PercentBytes(bs)| :: IsEncodedChar(PercentBytes(bs)[i])
  {
    if bs != [] {
      PercentBytesSafe(bs[1..]);
      var p := PercentByte(bs[0]);
      assert forall i | 0 <= i < |p| :: IsEncodedChar(p[i]) by {
        forall i | 0 <= i < |p| ensures IsEncodedChar(p[i]) {
          if i > 0 {
            assert IsRadixDigit(p[i], 16);
          }
        }
      }
    }
  }

  lemma EncodedHasNo(es: EncodeSet, s: string, c: char)
    requires !IsEncodedChar(c)
    ensures c !in Encode(es, s)
  {
    EncodeIsSafe(es, s);
  }

  /** Text made only of characters the set leaves alone is its own encoding. */
  lemma {:induction false} EncodeUnreserved(es: EncodeSet, s: string)
    requires forall i | 0 <= i < |s| :: Unreserved(es, s[i])
    ensures Encode(es, s) == s
  {
    if s != [] {
      EncodeUnreserved(es, s[1..]);
      assert [s[0]] + s[1..] == s;
    }
  }

  /** Percent-decoding of the form-urlencoded parser: "+" is a space, "%XY"
      with two hexadecimal digits is the byte XY, and any other character
      (a "%" without two digits after it included) stands for its own UTF-8
      bytes. */
  function PercentDecode(s: string): seq<byte>
    decreases |s|
  {
    if s == [] then []
    else if s[0] == '%' && |s| >= 3 && IsRadixDigit(s[1], 16) && IsRadixDigit(s[2], 16) then
      [(CharValue(s[1]) * 16 + CharValue(s[2])) as byte] + PercentDecode(s[3..])
    else if s[0] == '+' then [0x20] + PercentDecode(s[1..])
    else Utf8(s[0]) + PercentDecode(s[1..])
  }

  /** A name or value of a form-urlencoded string, decoded back to text. */
  function FormDecode(s: string): Option<string>
  {
    Utf8Decode(PercentDecode(s))
  }

  lemma PercentDecodeByte(b: byte, rest: string)
    ensures PercentDecode(PercentByte(b) + rest) == [b] + PercentDecode(rest)
  {
    var s := PercentByte(b) + rest;
    assert s[0] == '%' && s[1] == HexDigitUpper(b / 16) && s[2] == HexDigitUpper(b % 16);
    assert s[3..] == rest;
  }

  lemma {:induction false} PercentDecodeBytes(bs: seq<byte>, rest: string)
    ensures PercentDecode(PercentBytes(bs) + rest) == bs + PercentDecode(rest)
  {
    if bs == [] {
      assert PercentBytes(bs) + rest == rest;
    } else {
      var tail := PercentBytes(bs[1..]) + rest;
      assert PercentBytes(bs) == PercentByte(bs[0]) + PercentBytes(bs[1..]);
      assert PercentBytes(bs) + rest == PercentByte(bs[0]) + tail;
      PercentDecodeByte(bs[0], tail);
      PercentDecodeBytes(bs[1..], rest);
      ConsAppend(bs[0], bs[1..], PercentDecode(rest));
      assert [bs[0]] + bs[1..] == bs;
    }
  }

  lemma ConsAppend<T>(x: T, t: seq<T>, d: seq<T>)
    ensures [x] + (t + d) == ([x] + t) + d
  {
  }

  lemma PercentDecodeChar(es: EncodeSet, c: char, rest: string)
    ensures PercentDecode(EncodeChar(es, c) + rest) == Utf8(c) + PercentDecode(rest)
  {
    if Unreserved(es, c) {
      var s := [c] + rest;
      assert s[0] == c && s[1..] == rest;
    } else if es == FormSet && c == ' ' {
      var s := "+" + rest;
      assert s[0] == '+' && s[1..] == rest;
    } else {
      PercentDecodeBytes(Utf8(c), rest);
    }
  }

  /** Percent-decoding yields exactly the UTF-8 bytes that were encoded. */
  lemma {:induction false} PercentDecodeEncode(es: EncodeSet, s: string)
    ensures PercentDecode(Encode(es, s)) == Utf8Encode(s)
  {
    if s != [] {
      PercentDecodeChar(es, s[0], Encode(es, s[1..]));
      PercentDecodeEncode(es, s[1..]);
    }
  }

  /** The form-urlencoded decoder recovers any text encoded with either set. */
  lemma EncodeRoundTrip(es: EncodeSet, s: string)
    ensures FormDecode(Encode(es, s)) == Some(s)
  {
    PercentDecodeEncode(es, s);
    Utf8RoundTrip(s);
  }

  /** The text before the first `sep` in `s`, and the text after it when
      there is one. */
  function SplitOnce(s: string, sep: char): (r: (string, Option<string>))
    ensures sep !in r.0
    ensures r.1.None? ==> r.0 == s
    ensures r.1.Some? ==> s == r.0 + [sep] + r.1.value
  {
    if s == [] then ([], None)
    else if s[0] == sep then ([], Some(s[1..]))
    else
      var r := SplitOnce(s[1..], sep);
      ([s[0]] + r.0, r.1)
  }

  lemma {:induction false} SplitOnceAt(a: string, sep: char, b: string)
    requires sep !in a
    ensures SplitOnce(a + [sep] + b, sep) == (a, Some(b))
  {
    if a == [] {
      assert a + [sep] + b == [sep] + b;
    } else {
      assert (a + [sep] + b)[1..] == a[1..] + [sep] + b;
      SplitOnceAt(a[1..], sep, b);
      assert [a[0]] + a[1..] == a;
    }
  }

  lemma {:induction false} SplitOnceWhole(a: string, sep: char)
    requires sep !in a
    ensures SplitOnce(a, sep) == (a, None)
  {
    if a != [] {
      SplitOnceWhole(a[1..], sep);
      assert [a[0]] + a[1..] == a;
    }
  }

  function SerializePair(es: EncodeSet, p: (string, string)): string
  {
    Encode(es, p.0) + "=" + Encode(es, p.1)
  }

  /** Name-value pairs joined as "name=value" with "&", each part encoded
      with `set`. */
  function Serialize(es: EncodeSet, pairs: seq<(string, string)>): string
  {
    if pairs == [] then ""
    else if |pairs| == 1 then SerializePair(es, pairs[0])
    else SerializePair(es, pairs[0]) + "&" + Serialize(es, pairs[1..])
  }

  /** `new URLSearchParams(pairs).toString()`: the application/x-www-form-urlencoded
      serializer. */
  function UrlSearchParams(pairs: seq<(string, string)>): string
  {
    Serialize(FormSet, pairs)
  }

  /** One "name=value" sequence of the form-urlencoded parser: without "=" the
      whole sequence is the name and the value is empty. */
  function ParsePair(seg: string): Option<(string, string)>
  {
    var (name, value) := SplitOnce(seg, '=');
    var v := if value.Some? then value.value else "";
    match (FormDecode(name), FormDecode(v))
    case (Some(n), Some(x)) => Some((n, x))
    case _ => None
  }

  /** The application/x-www-form-urlencoded parser: split on "&", skip empty
      sequences, decode each "name=value" pair. */
  function FormParse(s: string): Option<seq<(string, string)>>
    decreases |s|
  {
    var (seg, rest) := SplitOnce(s, '&');
    var head: Option<seq<(string, string)>> :=
      if seg == [] then Some([])
      else match ParsePair(seg) case None => None case Some(p) => Some([p]);
    match rest
    case None => head
    case Some(r) =>
      match head
      case None => None
      case Some(h) => Prepend(h, FormParse(r))
  }

  lemma ParseSerializedPair(es: EncodeSet, p: (string, string))
    ensures ParsePair(SerializePair(es, p)) == Some(p)
  {
    EncodedHasNo(es, p.0, '=');
    SplitOnceAt(Encode(es, p.0), '=', Encode(es, p.1));
    EncodeRoundTrip(es, p.0);
    EncodeRoundTrip(es, p.1);
  }

  lemma SerializedPairIsSafe(es: EncodeSet, p: (string, string))
    ensures '&' !in SerializePair(es, p)
    ensures SerializePair(es, p) != []
  {
    EncodedHasNo(es, p.0, '&');
    EncodedHasNo(es, p.1, '&');
    assert SerializePair(es, p)[|Encode(es, p.0)|] == '=';
  }

  /** Parsing a serialization gives back exactly the pairs, in order: the
      upstream server reads the parameters the application meant to send. */
  lemma {:induction false} FormParseSerialize(es: EncodeSet, pairs: seq<(string, string)>)
    ensures FormParse(Serialize(es, pairs)) == Some(pairs)
  {
    if pairs == [] {
      assert SplitOnce("", '&') == ([], None);
    } else if |pairs| == 1 {
      ParseSerializedLast(es, pairs);
    } else {
      ParseSerializedCons(es, pairs);
      FormParseSerialize(es, pairs[1..]);
      assert [pairs[0]] + pairs[1..] == pairs;
    }
  }

  lemma ParseSerializedLast(es: EncodeSet, pairs: seq<(string, string)>)
    requires |pairs| == 1
    ensures FormParse(Serialize(es, pairs)) == Some(pairs)
  {
    SerializedPairIsSafe(es, pairs[0]);
    ParseSerializedPair(es, pairs[0]);
    FormParseLast(SerializePair(es, pairs[0]), pairs[0]);
    assert pairs == [pairs[0]];
  }

  lemma ParseSerializedCons(es: EncodeSet, pairs: seq<(string, string)>)
    requires |pairs| > 1
    ensures FormParse(Serialize(es, pairs)) == Prepend([pairs[0]], FormParse(Serialize(es, pairs[1..])))
  {
    SerializedPairIsSafe(es, pairs[0]);
    ParseSerializedPair(es, pairs[0]);
    FormParseCons(SerializePair(es, pairs[0]), pairs[0], Serialize(es, pairs[1..]));
  }

  /** A last "name=value" sequence parses to its pair. */
  lemma FormParseLast(seg: string, p: (string, string))
    requires '&' !in seg && seg != [] && ParsePair(seg) == Some(p)
    ensures FormParse(seg) == Some([p])
  {
    SplitOnceWhole(seg, '&');
  }

  /** A "name=value" sequence followed by "&" parses to its pair in front
      of what the rest parses to. */
  lemma FormParseCons(seg: string, p: (string, string), rest: string)
    requires '&' !in seg && seg != [] && ParsePair(seg) == Some(p)
    ensures FormParse(seg + "&" + rest) == Prepend([p], FormParse(rest))
  {
    SplitOnceAt(seg, '&', rest);
  }

  /** A serialization holds no character outside percent-encoded text other
      than the "=" and "&" delimiters; in particular no "?" or "#". */
  lemma {:induction false} SerializeHasNo(es: EncodeSet, pairs: seq<(string, string)>, c: char)
    requires !IsEncodedChar(c) && c != '=' && c != '&'
    ensures c !in Serialize(es, pairs)
  {
    if pairs != [] {
      EncodedHasNo(es, pairs[0].0, c);
      EncodedHasNo(es, pairs[0].1, c);
      SerializeHasNo(es, pairs[1..], c);
    }
  }
}
