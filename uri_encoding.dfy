/** `encodeURIComponent` as ECMAScript defines it: every character outside the
    unreserved set becomes the `%XX` escapes (upper-case hexadecimal) of its UTF-8
    bytes. `DecodeURIComponent` is the inverse the standard pairs it with; the
    round trip `DecodeURIComponent(EncodeURIComponent(s)) == Some(s)` is proved
    for every string. */
module UriEncoding {
  import opened JsBuiltins

  /** The characters `encodeURIComponent` leaves alone: letters, digits and `-_.!~*'()`. */
  predicate IsUnreserved(c: char) {
    ('A' <= c <= 'Z') || ('a' <= c <= 'z') || ('0' <= c <= '9')
    || c == '-' || c == '_' || c == '.' || c == '!' || c == '~' || c == '*' || c == '\'' || c == '(' || c == ')'
  }

  predicate IsByte(b: nat) { b < 256 }

  predicate AllBytes(bs: seq<nat>) {
    forall i | 0 <= i < |bs| :: IsByte(bs[i])
  }

  /** The UTF-8 encoding of one code point: one to four bytes. */
  function Utf8Bytes(c: char): (bs: seq<nat>)
    ensures 1 <= |bs| <= 4 && AllBytes(bs)
    ensures |bs| == 1 <==> (c as int) < 0x80
    ensures |bs| == 1 ==> bs[0] == c as int
  {
    var cp := c as int;
    if cp < 0x80 then [cp]
    else if cp < 0x800 then [0xC0 + cp / 64, 0x80 + cp % 64]
    else if cp < 0x10000 then [0xE0 + cp / 4096, 0x80 + (cp / 64) % 64, 0x80 + cp % 64]
    else [0xF0 + cp / 262144, 0x80 + (cp / 4096) % 64, 0x80 + (cp / 64) % 64, 0x80 + cp % 64]
  }

  /** An upper-case hexadecimal digit. */
  function HexDigit(d: nat): (c: char)
    requires d < 16
    ensures IsUnreserved(c)
  {
    if d < 10 then (48 + d) as char else (55 + d) as char
  }

  /** The value of a hexadecimal digit of either case. */
  function HexValue(c: char): (r: Option<nat>)
    ensures r.Some? ==> r.value < 16
  {
    if '0' <= c <= '9' then Some(c as int - 48)
    else if 'A' <= c <= 'F' then Some(c as int - 55)
    else if 'a' <= c <= 'f' then Some(c as int - 87)
    else None
  }

  lemma HexRoundTrip(d: nat)
    requires d < 16
    ensures HexValue(HexDigit(d)) == Some(d)
  {
  }

  /** `%XX` for one byte. */
  function PercentByte(b: nat): (r: string)
    requires IsByte(b)
    ensures |r| == 3 && r[0] == '%'
  {
    ['%', HexDigit(b / 16), HexDigit(b % 16)]
  }

  function PercentBytes(bs: seq<nat>): (r: string)
    requires AllBytes(bs)
    ensures |r| == 3 * |bs|
  {
    if bs == [] then [] else PercentByte(bs[0]) + PercentBytes(bs[1..])
  }

  /** What one character becomes. */
  function EncodeChar(c: char): (r: string)
    ensures IsUnreserved(c) ==> r == [c]
    ensures !IsUnreserved(c) ==> |r| == 3 * |Utf8Bytes(c)| && r[0] == '%'
  {
    if IsUnreserved(c) then [c] else PercentBytes(Utf8Bytes(c))
  }

  /** `encodeURIComponent(s)`. */
  function EncodeURIComponent(s: string): (r: string)
    ensures |s| <= |r|
  {
    if s == [] then [] else EncodeChar(s[0]) + EncodeURIComponent(s[1..])
  }

  /** Encoding works character by character. */
  lemma {:induction false} EncodeAppend(a: string, b: string)
    ensures EncodeURIComponent(a + b) == EncodeURIComponent(a) + EncodeURIComponent(b)
  {
    if a == [] {
      assert a + b == b;
    } else {
      assert (a + b)[0] == a[0];
      assert (a + b)[1..] == a[1..] + b;
      EncodeAppend(a[1..], b);
      assert EncodeURIComponent(a + b) == EncodeChar(a[0]) + (EncodeURIComponent(a[1..]) + EncodeURIComponent(b));
    }
  }

  /** A string of unreserved characters is its own encoding. */
  lemma {:induction false} EncodeUnreserved(s: string)
    requires forall i | 0 <= i < |s| :: IsUnreserved(s[i])
    ensures EncodeURIComponent(s) == s
  {
    if s != [] {
      EncodeUnreserved(s[1..]);
    }
  }

  /** The characters an encoded string is made of: unreserved ones, `%` and hex digits. */
  predicate IsUriSafe(c: char) {
    IsUnreserved(c) || c == '%'
  }

  predicate AllUriSafe(s: string) {
    forall i | 0 <= i < |s| :: IsUriSafe(s[i])
  }

  lemma {:induction false} EncodeIsSafe(s: string)
    ensures AllUriSafe(EncodeURIComponent(s))
  {
    if s != [] {
      EncodeIsSafe(s[1..]);
      PercentBytesSafe(Utf8Bytes(s[0]));
      var e := EncodeChar(s[0]);
      var r := EncodeURIComponent(s);
      var t := EncodeURIComponent(s[1..]);
      assert r == e + t;
      forall i | 0 <= i < |r| ensures IsUriSafe(r[i]) {
        if i < |e| {
          assert r[i] == e[i];
          if IsUnreserved(s[0]) { assert e == [s[0]]; } else { assert e == PercentBytes(Utf8Bytes(s[0])); }
        } else { assert r[i] == t[i - |e|]; }
      }
    }
  }

  lemma {:induction false} PercentBytesSafe(bs: seq<nat>)
    requires AllBytes(bs)
    ensures AllUriSafe(PercentBytes(bs))
  {
    if bs != [] {
      PercentBytesSafe(bs[1..]);
      var p := PercentByte(bs[0]);
      var r := PercentBytes(bs);
      var t := PercentBytes(bs[1..]);
      assert r == p + t;
      assert IsUriSafe(p[0]) && IsUriSafe(p[1]) && IsUriSafe(p[2]);
      forall i | 0 <= i < |r| ensures IsUriSafe(r[i]) {
        if i < 3 {
          assert r[i] == p[i];
        } else {
          assert r[i] == t[i - 3];
          assert IsUriSafe(t[i - 3]);
        }
      }
    }
  }

  /** The byte a `%XX` escape at the front of `s` denotes. */
  function EscapedByte(s: string): (r: Option<nat>)
    ensures r.Some? ==> |s| >= 3 && IsByte(r.value)
  {
    if |s| < 3 || s[0] != '%' then None
    else match (HexValue(s[1]), HexValue(s[2]))
      case (Some(h), Some(l)) => Some(16 * h + l)
      case _ => None
  }

  /** `k` escaped bytes from the front of `s`. */
  function ReadBytes(s: string, k: nat): (r: Option<seq<nat>>)
    ensures r.Some? ==> |r.value| == k && AllBytes(r.value) && 3 * k <= |s|
  {
    if k == 0 then Some([])
    else match EscapedByte(s)
      case None => None
      case Some(b) =>
        match ReadBytes(s[3..], k - 1)
        case None => None
        case Some(rest) => Some([b] + rest)
  }

  /** How many bytes a UTF-8 sequence has, judged from its first byte; 0 for a byte
      that cannot start one. */
  function SequenceLength(b: nat): (n: nat)
    ensures n <= 4
  {
    if b < 0x80 then 1
    else if 0xC0 <= b < 0xE0 then 2
    else if 0xE0 <= b < 0xF0 then 3
    else if 0xF0 <= b < 0xF8 then 4
    else 0
  }

  predicate IsContinuation(b: nat) { 0x80 <= b < 0xC0 }

  /** The code point a UTF-8 sequence denotes, refusing overlong forms, surrogates and
      values past U+10FFFF. */
  function DecodeUtf8(bs: seq<nat>): (r: Option<char>)
  {
    if |bs| == 1 then
      if bs[0] < 0x80 then Some(bs[0] as char) else None
    else if |bs| == 2 then
      if 0xC0 <= bs[0] < 0xE0 && IsContinuation(bs[1]) then
        var cp := (bs[0] - 0xC0) * 64 + (bs[1] - 0x80);
        if cp >= 0x80 then Some(cp as char) else None
      else None
    else if |bs| == 3 then
      if 0xE0 <= bs[0] < 0xF0 && IsContinuation(bs[1]) && IsContinuation(bs[2]) then
        var cp := (bs[0] - 0xE0) * 4096 + (bs[1] - 0x80) * 64 + (bs[2] - 0x80);
        if cp >= 0x800 && !(0xD800 <= cp < 0xE000) then Some(cp as char) else None
      else None
    else if |bs| == 4 then
      if 0xF0 <= bs[0] < 0xF8 && IsContinuation(bs[1]) && IsContinuation(bs[2]) && IsContinuation(bs[3]) then
        var cp := (bs[0] - 0xF0) * 262144 + (bs[1] - 0x80) * 4096 + (bs[2] - 0x80) * 64 + (bs[3] - 0x80);
        if 0x10000 <= cp < 0x110000 then Some(cp as char) else None
      else None
    else None
  }

  /** `decodeURIComponent(s)`: `None` where the standard throws a `URIError` (a broken
      escape or an invalid UTF-8 sequence). */
  function DecodeURIComponent(s: string): (r: Option<string>)
    decreases |s|
  {
    if s == [] then Some([])
    else if s[0] != '%' then
      match DecodeURIComponent(s[1..])
      case None => None
      case Some(t) => Some([s[0]] + t)
    else
      match EscapedByte(s)
      case None => None
      case Some(b0) =>
        var n := SequenceLength(b0);
        if n == 0 then None
        else match ReadBytes(s, n)
          case None => None
          case Some(bs) =>
            match DecodeUtf8(bs)
            case None => None
            case Some(c) =>
              match DecodeURIComponent(s[3 * n..])
              case None => None
              case Some(t) => Some([c] + t)
  }

  lemma EscapedByteOfPercent(b: nat, rest: string)
    requires IsByte(b)
    ensures EscapedByte(PercentByte(b) + rest) == Some(b)
  {
    HexRoundTrip(b / 16);
    HexRoundTrip(b % 16);
  }

  lemma {:induction false} ReadPercentBytes(bs: seq<nat>, rest: string)
    requires AllBytes(bs)
    ensures ReadBytes(PercentBytes(bs) + rest, |bs|) == Some(bs)
  {
    if bs != [] {
      var tail := PercentBytes(bs[1..]) + rest;
      var s := PercentBytes(bs) + rest;
      assert s == PercentByte(bs[0]) + tail;
      EscapedByteOfPercent(bs[0], tail);
      assert s[3..] == tail;
      ReadPercentBytes(bs[1..], rest);
      assert ReadBytes(tail, |bs| - 1) == Some(bs[1..]);
      assert ReadBytes(s, |bs|) == Some([bs[0]] + bs[1..]);
      assert [bs[0]] + bs[1..] == bs;
    }
  }

  /** UTF-8 decoding inverts UTF-8 encoding, and the first byte announces the length. */
  lemma Utf8RoundTrip(c: char)
    ensures SequenceLength(Utf8Bytes(c)[0]) == |Utf8Bytes(c)|
    ensures DecodeUtf8(Utf8Bytes(c)) == Some(c)
  {
    var cp := c as int;
    if cp < 0x80 {
    } else if cp < 0x800 {
      TwoByteValue(cp);
    } else if cp < 0x10000 {
      ThreeByteValue(cp);
    } else {
      FourByteValue(cp);
    }
  }

  lemma TwoByteValue(cp: int)
    requires 0x80 <= cp < 0x800
    ensures 0xC0 <= 0xC0 + cp / 64 < 0xE0 && (cp / 64) * 64 + cp % 64 == cp
  {
  }

  lemma ThreeByteValue(cp: int)
    requires 0x800 <= cp < 0x10000
    ensures 0xE0 <= 0xE0 + cp / 4096 < 0xF0
    ensures (cp / 4096) * 4096 + ((cp / 64) % 64) * 64 + cp % 64 == cp
  {
    assert ((cp / 64) % 64) * 64 + cp % 64 == cp % 4096;
  }

  lemma FourByteValue(cp: int)
    requires 0x10000 <= cp < 0x110000
    ensures 0xF0 <= 0xF0 + cp / 262144 < 0xF8
    ensures (cp / 262144) * 262144 + ((cp / 4096) % 64) * 4096 + ((cp / 64) % 64) * 64 + cp % 64 == cp
  {
    var low := cp % 4096;
    assert ((cp / 64) % 64) * 64 + cp % 64 == low;
    var high := cp / 4096;
    assert cp == high * 4096 + low;
    assert (high % 64) * 4096 + low == cp % 262144;
  }

  /** Decoding one encoded character and then the rest. */
  lemma DecodeEncodedChar(c: char, rest: string)
    ensures DecodeURIComponent(EncodeChar(c) + rest) ==
      match DecodeURIComponent(rest)
      case None => None
      case Some(t) => Some([c] + t)
  {
    var s := EncodeChar(c) + rest;
    if IsUnreserved(c) {
      assert s[1..] == rest;
    } else {
      var bs := Utf8Bytes(c);
      assert s == PercentBytes(bs) + rest;
      ReadPercentBytes(bs, rest);
      assert PercentBytes(bs) == PercentByte(bs[0]) + PercentBytes(bs[1..]);
      EscapedByteOfPercent(bs[0], PercentBytes(bs[1..]) + rest);
      Utf8RoundTrip(c);
      assert s[3 * |bs|..] == rest;
    }
  }

  /** The round trip: decoding an encoded string gives the string back. */
  lemma {:induction false} DecodeEncode(s: string)
    ensures DecodeURIComponent(EncodeURIComponent(s)) == Some(s)
  {
    if s != [] {
      DecodeEncode(s[1..]);
      DecodeEncodedChar(s[0], EncodeURIComponent(s[1..]));
      assert [s[0]] + s[1..] == s;
    }
  }

  /** Distinct strings encode differently. */
  lemma EncodeInjective(s: string, t: string)
    requires EncodeURIComponent(s) == EncodeURIComponent(t)
    ensures s == t
  {
    DecodeEncode(s);
    DecodeEncode(t);
  }
}
