/** The `URLSearchParams` behaviour the repository relies on: serialising a
    parameter list into a query string or a form body (`toString()`), and
    reading a parameter back out of a URL (`new URL(u).searchParams.get(n)`).
    Both follow the application/x-www-form-urlencoded rules of the WHATWG URL
    Standard (section 5), which percent-encode the UTF-8 bytes of each name
    and value; UTF-8 decoding follows the WHATWG Encoding Standard, including
    its U+FFFD replacement of ill-formed input. */
module FormUrlEncoded {
  import opened Wrappers
  import Text

  type Byte = b: int | 0 <= b < 256

  /** A `URLSearchParams` object: its name/value list, in order. */
  type Params = seq<(string, string)>

  // ---------------------------------------------------------------------
  // UTF-8

  /** The UTF-8 bytes of one Unicode scalar value. */
  function CharBytes(c: char): (r: seq<Byte>)
    ensures 1 <= |r| <= 4
    ensures (c as int < 0x80) == (r == [c as int])
  {
    var v := c as int;
    if v < 0x80 then [v]
    else if v < 0x800 then [0xC0 + v / 64, 0x80 + v % 64]
    else if v < 0x10000 then [0xE0 + v / 4096, 0x80 + (v / 64) % 64, 0x80 + v % 64]
    else [0xF0 + v / 262144, 0x80 + (v / 4096) % 64, 0x80 + (v / 64) % 64, 0x80 + v % 64]
  }

  function Utf8Encode(s: string): seq<Byte> {
    if |s| == 0 then [] else CharBytes(s[0]) + Utf8Encode(s[1..])
  }

  const Replacement: char := '\U{FFFD}'

  /** The character with code point `cp`, when there is one. */
  function ScalarOr(cp: int): char {
    if 0 <= cp < 0xD800 || 0xE000 <= cp < 0x110000 then cp as char else Replacement
  }

  /** A lead byte of a two-, three- or four-byte sequence whose next
      byte is outside the range allowed after it starts no character. */
  function ContinuationRange(b0: int): (int, int) {
    if b0 == 0xE0 then (0xA0, 0xBF)
    else if b0 == 0xED then (0x80, 0x9F)
    else if b0 == 0xF0 then (0x90, 0xBF)
    else if b0 == 0xF4 then (0x80, 0x8F)
    else (0x80, 0xBF)
  }

  predicate IsContinuation(b: Byte) {
    0x80 <= b <= 0xBF
  }

  /** The first character of a non-empty byte sequence under UTF-8 decode
      without BOM, and how many bytes it consumes. A lead byte that is not
      followed by the continuation bytes its range allows yields U+FFFD, and
      decoding resumes at the offending byte. */
  function DecodeOne(b: seq<Byte>): (r: (char, nat))
    requires |b| > 0
    ensures 1 <= r.1 <= |b|
  {
    var b0: int := b[0];
    var (lo, hi) := ContinuationRange(b0);
    if b0 < 0x80 then (b0 as char, 1)
    else if 0xC2 <= b0 <= 0xDF then
      if |b| >= 2 && IsContinuation(b[1]) then
        (ScalarOr((b0 - 0xC0) * 64 + (b[1] as int - 0x80)), 2)
      else (Replacement, 1)
    else if 0xE0 <= b0 <= 0xEF then
      if |b| >= 2 && lo <= b[1] <= hi then
        if |b| >= 3 && IsContinuation(b[2]) then
          (ScalarOr((b0 - 0xE0) * 4096 + (b[1] as int - 0x80) * 64 + (b[2] as int - 0x80)), 3)
        else (Replacement, 2)
      else (Replacement, 1)
    else if 0xF0 <= b0 <= 0xF4 then
      if |b| >= 2 && lo <= b[1] <= hi then
        if |b| >= 3 && IsContinuation(b[2]) then
          if |b| >= 4 && IsContinuation(b[3]) then
            (ScalarOr((b0 - 0xF0) * 262144 + (b[1] as int - 0x80) * 4096
                      + (b[2] as int - 0x80) * 64 + (b[3] as int - 0x80)), 4)
          else (Replacement, 3)
        else (Replacement, 2)
      else (Replacement, 1)
    else (Replacement, 1)
  }

  /** UTF-8 decode without BOM (WHATWG Encoding Standard). */
  function Utf8Decode(b: seq<Byte>): string
    decreases |b|
  {
    if |b| == 0 then ""
    else
      var (c, n) := DecodeOne(b);
      [c] + Utf8Decode(b[n..])
  }

  lemma {:induction false} Utf8EncodeAppend(s: string, t: string)
    ensures Utf8Encode(s + t) == Utf8Encode(s) + Utf8Encode(t)
    decreases |s|
  {
    if |s| == 0 {
      assert s + t == t;
    } else {
      assert (s + t)[1..] == s[1..] + t;
      Utf8EncodeAppend(s[1..], t);
    }
  }

  lemma DecodeOne1(c: char, rest: seq<Byte>)
    requires c as int < 0x80
    ensures DecodeOne(CharBytes(c) + rest) == (c, 1)
  {
  }

  lemma DecodeOne2(c: char, rest: seq<Byte>)
    requires 0x80 <= c as int < 0x800
    ensures DecodeOne(CharBytes(c) + rest) == (c, 2)
  {
    var v := c as int;
    var b := CharBytes(c) + rest;
    assert b[0] == 0xC0 + v / 64 && b[1] == 0x80 + v % 64;
    assert (b[0] as int - 0xC0) * 64 + (b[1] as int - 0x80) == v;
  }

  lemma DecodeOne3(c: char, rest: seq<Byte>)
    requires 0x800 <= c as int < 0x10000
    ensures DecodeOne(CharBytes(c) + rest) == (c, 3)
  {
    var v := c as int;
    var b := CharBytes(c) + rest;
    assert b[0] == 0xE0 + v / 4096 && b[1] == 0x80 + (v / 64) % 64 && b[2] == 0x80 + v % 64;
    assert v / 64 == (v / 4096) * 64 + (v / 64) % 64;
    assert (b[0] as int - 0xE0) * 4096 + (b[1] as int - 0x80) * 64 + (b[2] as int - 0x80) == v;
    var (lo, hi) := ContinuationRange(b[0]);
    assert lo <= b[1] <= hi;
  }

  lemma DecodeOne4(c: char, rest: seq<Byte>)
    requires 0x10000 <= c as int
    ensures DecodeOne(CharBytes(c) + rest) == (c, 4)
  {
    var v := c as int;
    var b := CharBytes(c) + rest;
    assert b[0] == 0xF0 + v / 262144 && b[1] == 0x80 + (v / 4096) % 64;
    assert b[2] == 0x80 + (v / 64) % 64 && b[3] == 0x80 + v % 64;
    SplitFour(v);
    var (lo, hi) := ContinuationRange(b[0]);
    assert lo <= b[1] <= hi;
  }

  /** The four six-bit groups of a four-byte code point put it back together. */
  lemma SplitFour(v: int)
    requires 0 <= v
    ensures (v / 262144) * 262144 + ((v / 4096) % 64) * 4096 + ((v / 64) % 64) * 64 + v % 64 == v
  {
    DivSixtyFour(v, 64);
    DivSixtyFour(v, 4096);
  }

  /** Dropping six more bits: `v / (m * 64) == (v / m) / 64`. */
  lemma DivSixtyFour(v: int, m: int)
    requires 0 <= v && (m == 64 || m == 4096)
    ensures v / (m * 64) == (v / m) / 64
  {
    var q := v / m;
    var r := v % m;
    assert v == q * m + r && 0 <= r < m;
    var hi := q / 64;
    var lo := q % 64;
    assert q == hi * 64 + lo && 0 <= lo < 64;
    assert v == hi * (m * 64) + (lo * m + r);
    assert 0 <= lo * m + r < m * 64;
  }

  /** Decoding the bytes of one character gives that character back and
      leaves the rest of the input to be decoded on its own. */
  lemma CharBytesDecode(c: char, rest: seq<Byte>)
    ensures Utf8Decode(CharBytes(c) + rest) == [c] + Utf8Decode(rest)
  {
    var v := c as int;
    var b := CharBytes(c) + rest;
    if v < 0x80 { DecodeOne1(c, rest); }
    else if v < 0x800 { DecodeOne2(c, rest); }
    else if v < 0x10000 { DecodeOne3(c, rest); }
    else { DecodeOne4(c, rest); }
    assert b[|CharBytes(c)|..] == rest;
  }

  /** UTF-8 decoding inverts UTF-8 encoding on every string. */
  lemma {:induction false} Utf8RoundTrip(s: string)
    ensures Utf8Decode(Utf8Encode(s)) == s
    decreases |s|
  {
    if |s| > 0 {
      CharBytesDecode(s[0], Utf8Encode(s[1..]));
      Utf8RoundTrip(s[1..]);
      assert s == [s[0]] + s[1..];
    }
  }

  // ---------------------------------------------------------------------
  // Percent-encoding

  /** Upper-case hexadecimal digit. */
  function HexDigit(d: int): (c: char)
    requires 0 <= d < 16
  {
    if d < 10 then ('0' as int + d) as char else ('A' as int + d - 10) as char
  }

  predicate IsHexByte(b: Byte) {
    (0x30 <= b <= 0x39) || (0x41 <= b <= 0x46) || (0x61 <= b <= 0x66)
  }

  function HexValue(b: Byte): (d: int)
    requires IsHexByte(b)
    ensures 0 <= d < 16
  {
    if b <= 0x39 then b - 0x30 else if b <= 0x46 then b - 0x41 + 10 else b - 0x61 + 10
  }

  /** Bytes the form-urlencoded serialiser copies unchanged: ASCII
      alphanumerics and `*`, `-`, `.`, `_`. */
  predicate Unreserved(b: Byte) {
    (0x30 <= b <= 0x39) || (0x41 <= b <= 0x5A) || (0x61 <= b <= 0x7A)
    || b == 0x2A || b == 0x2D || b == 0x2E || b == 0x5F
  }

  /** The characters the serialiser can emit. */
  predicate SerializedChar(c: char) {
    ('0' <= c <= '9') || ('A' <= c <= 'Z') || ('a' <= c <= 'z') || c in "*-._+%"
  }

  function EncodeByte(b: Byte): (r: string)
    ensures forall i :: 0 <= i < |r| ==> SerializedChar(r[i])
  {
    if Unreserved(b) then [b as char]
    else if b == 0x20 then "+"
    else ['%', HexDigit(b / 16), HexDigit(b % 16)]
  }

  function EncodeBytes(bs: seq<Byte>): string {
    if |bs| == 0 then "" else EncodeByte(bs[0]) + EncodeBytes(bs[1..])
  }

  lemma {:induction false} EncodedBytesChars(bs: seq<Byte>)
    ensures forall i :: 0 <= i < |EncodeBytes(bs)| ==> SerializedChar(EncodeBytes(bs)[i])
    decreases |bs|
  {
    if |bs| > 0 {
      EncodedBytesChars(bs[1..]);
    }
  }

  /** One name or value as `URLSearchParams` writes it. */
  function EncodeComponent(s: string): string {
    EncodeBytes(Utf8Encode(s))
  }

  /** Percent-decoding of a byte sequence: `%` followed by two hex digits
      becomes the byte they spell; every other byte is copied. */
  function PercentDecode(b: seq<Byte>): seq<Byte>
    decreases |b|
  {
    if |b| == 0 then []
    else if b[0] == 0x25 && |b| >= 3 && IsHexByte(b[1]) && IsHexByte(b[2]) then
      [HexValue(b[1]) * 16 + HexValue(b[2])] + PercentDecode(b[3..])
    else [b[0]] + PercentDecode(b[1..])
  }

  function PlusToSpace(s: string): (r: string)
    ensures |r| == |s|
    ensures forall i :: 0 <= i < |s| ==> r[i] == (if s[i] == '+' then ' ' else s[i])
  {
    if |s| == 0 then "" else [if s[0] == '+' then ' ' else s[0]] + PlusToSpace(s[1..])
  }

  /** One name or value as the form-urlencoded parser reads it. */
  function DecodeComponent(s: string): string {
    Utf8Decode(PercentDecode(Utf8Encode(PlusToSpace(s))))
  }

  lemma PlusToSpaceAppend(s: string, t: string)
    ensures PlusToSpace(s + t) == PlusToSpace(s) + PlusToSpace(t)
  {
  }

  lemma Utf8EncodeSingle(c: char)
    ensures Utf8Encode([c]) == CharBytes(c)
  {
    assert [c][1..] == [];
  }

  /** What the parser reads back from one serialised byte. */
  function ParsedBytes(b: Byte): seq<Byte> {
    Utf8Encode(PlusToSpace(EncodeByte(b)))
  }

  lemma EncodedByteDecodes(b: Byte, rest: seq<Byte>)
    ensures PercentDecode(ParsedBytes(b) + rest) == [b] + PercentDecode(rest)
  {
    if Unreserved(b) {
      assert EncodeByte(b) == [b as char];
      Utf8EncodeSingle(b as char);
      assert ParsedBytes(b) == [b];
      assert ([b] + rest)[1..] == rest;
    } else if b == 0x20 {
      assert ParsedBytes(b) == [0x20];
      assert ([0x20] + rest)[1..] == rest;
    } else {
      EscapedByteDecodes(b, rest);
    }
  }

  lemma EscapedBytes(b: Byte)
    requires !Unreserved(b) && b != 0x20
    ensures ParsedBytes(b) == [0x25, HexDigit(b / 16) as int, HexDigit(b % 16) as int]
  {
    var hi, lo := HexDigit(b / 16), HexDigit(b % 16);
    assert EncodeByte(b) == ['%', hi, lo];
    assert PlusToSpace(['%', hi, lo]) == ['%', hi, lo];
    Utf8EncodeSingle('%');
    Utf8EncodeSingle(hi);
    Utf8EncodeSingle(lo);
    Utf8EncodeAppend(['%'], [hi]);
    Utf8EncodeAppend(['%', hi], [lo]);
    assert ['%'] + [hi] == ['%', hi];
    assert ['%', hi] + [lo] == ['%', hi, lo];
  }

  lemma PercentDecodeEscape(h: Byte, l: Byte, rest: seq<Byte>)
    requires IsHexByte(h) && IsHexByte(l)
    ensures PercentDecode([0x25, h, l] + rest) == [HexValue(h) * 16 + HexValue(l)] + PercentDecode(rest)
  {
    var all := [0x25, h, l] + rest;
    assert all[0] == 0x25 && all[1] == h && all[2] == l;
    assert all[3..] == rest;
  }

  lemma EscapedByteDecodes(b: Byte, rest: seq<Byte>)
    requires !Unreserved(b) && b != 0x20
    ensures PercentDecode(ParsedBytes(b) + rest) == [b] + PercentDecode(rest)
  {
    var hi, lo := HexDigit(b / 16) as int, HexDigit(b % 16) as int;
    EscapedBytes(b);
    PercentDecodeEscape(hi, lo, rest);
    assert HexValue(hi) == b / 16 && HexValue(lo) == b % 16;
  }

  lemma {:induction false} DecodeEncodedBytes(bs: seq<Byte>)
    ensures PercentDecode(Utf8Encode(PlusToSpace(EncodeBytes(bs)))) == bs
    decreases |bs|
  {
    if |bs| > 0 {
      var head := EncodeByte(bs[0]);
      var tail := EncodeBytes(bs[1..]);
      PlusToSpaceAppend(head, tail);
      Utf8EncodeAppend(PlusToSpace(head), PlusToSpace(tail));
      EncodedByteDecodes(bs[0], Utf8Encode(PlusToSpace(tail)));
      DecodeEncodedBytes(bs[1..]);
      assert bs == [bs[0]] + bs[1..];
    }
  }

  /** Decoding a serialised name or value gives it back. */
  lemma ComponentRoundTrip(s: string)
    ensures DecodeComponent(EncodeComponent(s)) == s
  {
    DecodeEncodedBytes(Utf8Encode(s));
    Utf8RoundTrip(s);
  }

  // ---------------------------------------------------------------------
  // Lists of parameters

  /** `new URLSearchParams(ps).toString()` */
  function Serialize(ps: Params): string {
    if |ps| == 0 then ""
    else
      var pair := EncodeComponent(ps[0].0) + "=" + EncodeComponent(ps[0].1);
      if |ps| == 1 then pair else pair + "&" + Serialize(ps[1..])
  }

  /** One `&`-separated sequence of a query: name before the first `=`,
      value after it, an empty sequence contributing nothing. */
  function ParseSequence(sq: string): Params {
    if |sq| == 0 then []
    else
      match Text.IndexOf(sq, '=')
      case None => [(DecodeComponent(sq), "")]
      case Some(k) => [(DecodeComponent(sq[..k]), DecodeComponent(sq[k + 1..]))]
  }

  /** The form-urlencoded parser: the name/value list of a query string. */
  function Parse(q: string): Params
    decreases |q|
  {
    match Text.IndexOf(q, '&')
    case None => ParseSequence(q)
    case Some(k) => ParseSequence(q[..k]) + Parse(q[k + 1..])
  }

  /** `searchParams.get(name)`: the value of the first pair with that name. */
  function Get(ps: Params, name: string): (r: Option<string>)
    ensures r.Some? <==> exists i :: 0 <= i < |ps| && ps[i].0 == name
    ensures r.Some? ==> exists i :: (0 <= i < |ps| && ps[i] == (name, r.value)
      && forall j :: 0 <= j < i ==> ps[j].0 != name)
  {
    if |ps| == 0 then None
    else if ps[0].0 == name then Some(ps[0].1)
    else
      var r := Get(ps[1..], name);
      if r.Some? then
        ghost var i :| 0 <= i < |ps[1..]| && ps[1..][i] == (name, r.value)
          && forall j :: 0 <= j < i ==> ps[1..][j].0 != name;
        assert ps[i + 1] == (name, r.value);
        r
      else r
  }

  lemma EncodedHasNoSeparator(s: string)
    ensures '&' !in EncodeComponent(s) && '=' !in EncodeComponent(s)
    ensures '#' !in EncodeComponent(s) && '?' !in EncodeComponent(s)
  {
    var e := EncodeComponent(s);
    EncodedBytesChars(Utf8Encode(s));
    forall i | 0 <= i < |e| ensures e[i] !in "&=#?" {
      assert SerializedChar(e[i]);
    }
  }

  lemma PairParses(n: string, v: string)
    ensures ParseSequence(EncodeComponent(n) + "=" + EncodeComponent(v)) == [(n, v)]
  {
    var en, ev := EncodeComponent(n), EncodeComponent(v);
    EncodedHasNoSeparator(n);
    Text.IndexOfAfter(en, '=', ev);
    assert (en + "=" + ev)[..|en|] == en;
    assert (en + "=" + ev)[|en| + 1..] == ev;
    ComponentRoundTrip(n);
    ComponentRoundTrip(v);
  }

  lemma PairHasNoAmpersand(n: string, v: string)
    ensures '&' !in EncodeComponent(n) + "=" + EncodeComponent(v)
  {
    EncodedHasNoSeparator(n);
    EncodedHasNoSeparator(v);
  }

  lemma ParseJoined(sq: string, rest: string)
    requires '&' !in sq
    ensures Parse(sq + "&" + rest) == ParseSequence(sq) + Parse(rest)
  {
    Text.IndexOfAfter(sq, '&', rest);
    assert (sq + "&" + rest)[..|sq|] == sq;
    assert (sq + "&" + rest)[|sq| + 1..] == rest;
  }

  lemma ParseSingle(sq: string)
    requires '&' !in sq
    ensures Parse(sq) == ParseSequence(sq)
  {
  }

  /** Parsing a serialised parameter list gives the list back. */
  lemma {:induction false} ParseSerialize(ps: Params)
    ensures Parse(Serialize(ps)) == ps
    decreases |ps|
  {
    if |ps| > 0 {
      var (n, v) := ps[0];
      var pair := EncodeComponent(n) + "=" + EncodeComponent(v);
      assert ParseSequence(pair) == [ps[0]] by { PairParses(n, v); }
      assert '&' !in pair by { PairHasNoAmpersand(n, v); }
      if |ps| == 1 {
        assert Parse(Serialize(ps)) == [ps[0]] by { ParseSingle(pair); }
        assert ps == [ps[0]];
      } else {
        var rest := Serialize(ps[1..]);
        assert Parse(Serialize(ps)) == [ps[0]] + Parse(rest) by {
          assert Serialize(ps) == pair + "&" + rest;
          ParseJoined(pair, rest);
        }
        ParseSerialize(ps[1..]);
        assert ps == [ps[0]] + ps[1..];
      }
    }
  }

  // ---------------------------------------------------------------------
  // URLs

  /** The query component of a URL: what follows the first `?` of the part
      before the first `#`, or nothing when there is no `?` there. */
  function QueryOf(url: string): (q: string)
    ensures |q| <= |url|
  {
    var pre := match Text.IndexOf(url, '#') case None => url case Some(h) => url[..h];
    match Text.IndexOf(pre, '?')
    case None => ""
    case Some(k) => pre[k + 1..]
  }

  /** `new URL(url).searchParams.get(name)` */
  function SearchParam(url: string, name: string): Option<string> {
    Get(Parse(QueryOf(url)), name)
  }

  /** A URL built as `base + "?" + params` exposes exactly `params` as its
      search parameters when `base` has no `?` or `#` of its own. */
  lemma {:induction false} SerializedHasNoHash(ps: Params)
    ensures '#' !in Serialize(ps) && '?' !in Serialize(ps)
    decreases |ps|
  {
    if |ps| > 0 {
      EncodedHasNoSeparator(ps[0].0);
      EncodedHasNoSeparator(ps[0].1);
      SerializedHasNoHash(ps[1..]);
    }
  }

  lemma QueryOfBuiltUrl(base: string, ps: Params)
    requires '?' !in base && '#' !in base
    ensures QueryOf(base + "?" + Serialize(ps)) == Serialize(ps)
    ensures Parse(QueryOf(base + "?" + Serialize(ps))) == ps
  {
    var q := Serialize(ps);
    SerializedHasNoHash(ps);
    assert '#' !in base + "?" + q;
    Text.IndexOfAfter(base, '?', q);
    assert (base + "?" + q)[|base| + 1..] == q;
    ParseSerialize(ps);
  }
}
