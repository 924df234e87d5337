/** Percent-encoding and decoding of text (rust-old/src/mcp/tools/net_tools.rs), against sections
    2.1 and 2.3 of RFC 3986. */
module UrlEncoding {
  import opened Wrappers

  type Byte = b: int | 0 <= b < 256

  // ---------- UTF-8 ----------

  function Utf8(c: char): seq<Byte> {
    var n := c as int;
    if n < 0x80 then [n]
    else if n < 0x800 then [0xC0 + n / 64, 0x80 + n % 64]
    else if n < 0x1_0000 then [0xE0 + n / 4096, 0x80 + n / 64 % 64, 0x80 + n % 64]
    else [0xF0 + n / 262144, 0x80 + n / 4096 % 64, 0x80 + n / 64 % 64, 0x80 + n % 64]
  }

  function Utf8Text(s: string): seq<Byte> {
    if s == "" then [] else Utf8(s[0]) + Utf8Text(s[1..])
  }

  predicate IsContinuation(b: Byte) { 0x80 <= b < 0xC0 }

  predicate IsScalar(n: int) { 0 <= n < 0xD800 || 0xE000 <= n < 0x11_0000 }

  /** The character that starts the bytes and how many bytes it takes; none if they are malformed. */
  function FirstChar(b: seq<Byte>): (r: Option<(char, nat)>)
    ensures r.Some? ==> 0 < r.value.1 <= |b|
  {
    if b == [] then None
    else if b[0] < 0x80 then Some((b[0] as char, 1))
    else if 0xC0 <= b[0] < 0xE0 && |b| >= 2 && IsContinuation(b[1]) then
      var n: int := (b[0] as int - 0xC0) * 64 + (b[1] as int - 0x80);
      if n >= 0x80 then Some((n as char, 2)) else None
    else if 0xE0 <= b[0] < 0xF0 && |b| >= 3 && IsContinuation(b[1]) && IsContinuation(b[2]) then
      var n: int := (b[0] as int - 0xE0) * 4096 + (b[1] as int - 0x80) * 64 + (b[2] as int - 0x80);
      if n >= 0x800 && IsScalar(n) then Some((n as char, 3)) else None
    else if 0xF0 <= b[0] < 0xF8 && |b| >= 4 && IsContinuation(b[1]) && IsContinuation(b[2]) && IsContinuation(b[3]) then
      var n: int := (b[0] as int - 0xF0) * 262144 + (b[1] as int - 0x80) * 4096 + (b[2] as int - 0x80) * 64 + (b[3] as int - 0x80);
      if n >= 0x1_0000 && IsScalar(n) then Some((n as char, 4)) else None
    else None
  }

  /** `String::from_utf8`. */
  function FromUtf8(b: seq<Byte>): Option<string> {
    if b == [] then Some("")
    else
      match FirstChar(b)
      case None => None
      case Some((c, n)) =>
        match FromUtf8(b[n..])
        case None => None
        case Some(s) => Some([c] + s)
  }

  lemma FirstCharOfUtf8(c: char, rest: seq<Byte>)
    ensures FirstChar(Utf8(c) + rest) == Some((c, |Utf8(c)|))
  {
    var n := c as int;
    var b := Utf8(c) + rest;
    assert forall k :: 0 <= k < |Utf8(c)| ==> b[k] == Utf8(c)[k];
    if 0x1_0000 <= n {
      FourDigits(n);
      FourByteChar(b, n);
    } else if 0x800 <= n {
      ThreeDigits(n);
      ThreeByteChar(b, n);
    }
  }

  lemma TwiceBy64(n: nat)
    ensures n / 64 / 64 == n / 4096
  {
  }

  lemma By64And4096(n: nat)
    ensures n / 64 / 4096 == n / 262144
  {
  }

  lemma ThreeDigits(n: nat)
    ensures n == n / 4096 * 4096 + n / 64 % 64 * 64 + n % 64
  {
    TwiceBy64(n);
    assert n / 64 == n / 64 / 64 * 64 + n / 64 % 64;
    assert n == n / 64 * 64 + n % 64;
  }

  lemma FourDigits(n: nat)
    ensures n == n / 262144 * 262144 + n / 4096 % 64 * 4096 + n / 64 % 64 * 64 + n % 64
  {
    ThreeDigits(n / 64);
    By64And4096(n);
    TwiceBy64(n);
    assert n == n / 64 * 64 + n % 64;
  }

  lemma ThreeByteChar(b: seq<Byte>, n: nat)
    requires |b| >= 3 && 0x800 <= n < 0x1_0000 && IsScalar(n)
    requires 0xE0 <= b[0] < 0xF0 && IsContinuation(b[1]) && IsContinuation(b[2])
    requires n == (b[0] as int - 0xE0) * 4096 + (b[1] as int - 0x80) * 64 + (b[2] as int - 0x80)
    ensures FirstChar(b) == Some((n as char, 3))
  {
  }

  lemma FourByteChar(b: seq<Byte>, n: nat)
    requires |b| >= 4 && 0x1_0000 <= n < 0x11_0000
    requires 0xF0 <= b[0] < 0xF8 && IsContinuation(b[1]) && IsContinuation(b[2]) && IsContinuation(b[3])
    requires n == (b[0] as int - 0xF0) * 262144 + (b[1] as int - 0x80) * 4096 + (b[2] as int - 0x80) * 64 + (b[3] as int - 0x80)
    ensures FirstChar(b) == Some((n as char, 4))
  {
  }

  lemma Digits(n: int, q: int, d: int)
    requires n == q * 64 + d && 0 <= d < 64
    ensures n / 64 == q && n % 64 == d
  {
  }

  /** Only the encoding of a character reads as that character. */
  lemma FirstCharIsUtf8(b: seq<Byte>)
    requires FirstChar(b).Some?
    ensures b[..FirstChar(b).value.1] == Utf8(FirstChar(b).value.0)
  {
    var (c, n) := FirstChar(b).value;
    if n == 2 {
      Digits(c as int, b[0] - 0xC0, b[1] - 0x80);
    } else if n == 3 {
      TripleIsUtf8(b);
    } else if n == 4 {
      QuadrupleIsUtf8(b);
    }
  }

  lemma TripleIsUtf8(b: seq<Byte>)
    requires FirstChar(b).Some? && FirstChar(b).value.1 == 3
    ensures b[..3] == Utf8(FirstChar(b).value.0)
  {
    var n := FirstChar(b).value.0 as int;
    var high: int := (b[0] as int - 0xE0) * 64 + (b[1] - 0x80);
    Digits(n, high, b[2] - 0x80);
    Digits(high, b[0] - 0xE0, b[1] - 0x80);
    assert n / 4096 == n / 64 / 64;
  }

  lemma QuadrupleIsUtf8(b: seq<Byte>)
    requires FirstChar(b).Some? && FirstChar(b).value.1 == 4
    ensures b[..4] == Utf8(FirstChar(b).value.0)
  {
    var n := FirstChar(b).value.0 as int;
    var top: int := (b[0] as int - 0xF0) * 64 + (b[1] - 0x80);
    var high: int := top * 64 + (b[2] - 0x80);
    Digits(n, high, b[3] - 0x80);
    Digits(high, top, b[2] - 0x80);
    Digits(top, b[0] - 0xF0, b[1] - 0x80);
    assert n / 4096 == n / 64 / 64 && n / 262144 == n / 64 / 64 / 64;
  }

  /** Bytes are accepted exactly when they are the encoding of the text read. */
  lemma {:induction false} FromUtf8IsExact(b: seq<Byte>)
    requires FromUtf8(b).Some?
    ensures Utf8Text(FromUtf8(b).value) == b
  {
    hide FirstChar, Utf8;
    if b != [] {
      var (c, n) := FirstChar(b).value;
      FirstCharIsUtf8(b);
      FromUtf8IsExact(b[n..]);
      var s := FromUtf8(b).value;
      assert s == [c] + FromUtf8(b[n..]).value;
      assert s[1..] == FromUtf8(b[n..]).value;
      assert b == b[..n] + b[n..];
    }
  }

  lemma {:induction false} Utf8ReadsBack(s: string)
    ensures FromUtf8(Utf8Text(s)) == Some(s)
  {
    if s != "" {
      FirstCharOfUtf8(s[0], Utf8Text(s[1..]));
      assert Utf8Text(s)[|Utf8(s[0])|..] == Utf8Text(s[1..]);
      hide FirstChar;
      Utf8ReadsBack(s[1..]);
      assert s == [s[0]] + s[1..];
    }
  }

  // ---------- Encoding ----------

  /** Letters, digits and the four marks of section 2.3. */
  predicate IsUnreserved(c: char) {
    || 'a' <= c <= 'z' || 'A' <= c <= 'Z' || '0' <= c <= '9'
    || c == '-' || c == '_' || c == '.' || c == '~'
  }

  function HexDigit(n: int): char
    requires 0 <= n < 16
  {
    if n < 10 then ('0' as int + n) as char else ('A' as int + n - 10) as char
  }

  function EncodeByte(b: Byte): string {
    if b < 0x80 && IsUnreserved(b as char) then [b as char]
    else ['%', HexDigit(b / 16), HexDigit(b % 16)]
  }

  function EncodeBytes(b: seq<Byte>): string {
    if b == [] then "" else EncodeByte(b[0]) + EncodeBytes(b[1..])
  }

  method UrlEncode(input: string) returns (encoded: string)
    ensures encoded == EncodeBytes(Utf8Text(input))
  {
    encoded := "";
    var bytes := Utf8Text(input);
    for i := 0 to |bytes|
      invariant encoded + EncodeBytes(bytes[i..]) == EncodeBytes(bytes)
    {
      assert bytes[i..][0] == bytes[i] && bytes[i..][1..] == bytes[i + 1..];
      assert encoded + (EncodeByte(bytes[i]) + EncodeBytes(bytes[i + 1..]))
          == encoded + EncodeByte(bytes[i]) + EncodeBytes(bytes[i + 1..]);
      encoded := encoded + EncodeByte(bytes[i]);
    }
    assert bytes[|bytes|..] == [];
  }

  // ---------- Decoding ----------

  function HexValue(c: char): Option<int> {
    if '0' <= c <= '9' then Some(c as int - '0' as int)
    else if 'a' <= c <= 'f' then Some(c as int - 'a' as int + 10)
    else if 'A' <= c <= 'F' then Some(c as int - 'A' as int + 10)
    else None
  }

  /** `u8::from_str_radix(s, 16)` on at most two characters: a leading plus sign is accepted. */
  function ParseHex(s: string): (r: Option<int>)
    requires |s| <= 2
    ensures r.Some? ==> 0 <= r.value < 256
  {
    if |s| == 2 && s[0] != '+' then
      if HexValue(s[0]).Some? && HexValue(s[1]).Some? then Some(HexValue(s[0]).value * 16 + HexValue(s[1]).value)
      else None
    else if |s| == 2 then HexValue(s[1])
    else if |s| == 1 then HexValue(s[0])
    else None
  }

  /** Up to two characters after a percent sign. */
  function Two(s: string): string {
    if |s| < 2 then s else s[..2]
  }

  /** What the start of a non-empty text decodes to, and how many characters that takes. */
  function Piece(s: string): (r: (seq<Byte>, nat))
    requires s != ""
    ensures 0 < r.1 <= |s|
  {
    if s[0] == '%' then
      var hex := Two(s[1..]);
      (match ParseHex(hex) case Some(b) => [b] case None => [0x25] + Utf8Text(hex), 1 + |hex|)
    else if s[0] == '+' then ([0x20], 1)
    else (Utf8(s[0]), 1)
  }

  function DecodeBytes(s: string): seq<Byte>
    decreases |s|
  {
    if s == "" then [] else Piece(s).0 + DecodeBytes(s[Piece(s).1..])
  }

  method UrlDecode(input: string) returns (r: Option<string>)
    ensures r == FromUtf8(DecodeBytes(input))
  {
    hide DecodeBytes, Piece, FromUtf8;
    var bytes: seq<Byte> := [];
    var i := 0;
    NothingDecoded(input);
    while i < |input|
      invariant 0 <= i <= |input|
      invariant bytes + DecodeBytes(input[i..]) == DecodeBytes(input)
    {
      OneMorePiece(input, i, bytes);
      var found;
      found, i := DecodeAt(input, i);
      bytes := bytes + found;
    }
    NothingLeft(input, i, bytes);
    r := FromUtf8(bytes);
  }

  /** One turn of the decoding loop: the bytes it appends and where it stops. */
  method DecodeAt(input: string, start: nat) returns (found: seq<Byte>, i: nat)
    requires start < |input|
    ensures (found, i - start) == Piece(input[start..])
  {
    hide ParseHex, Utf8, Utf8Text;
    var c := input[start];
    i := start + 1;
    if c == '%' {
      assert input[start..][1..] == input[i..];
      var hex := Two(input[i..]);
      i := i + |hex|;
      var b := ParseHex(hex);
      if b.Some? {
        found := [b.value];
      } else {
        found := [0x25] + Utf8Text(hex);
      }
    } else if c == '+' {
      found := [0x20];
    } else {
      found := Utf8(c);
    }
  }

  lemma NothingLeft(input: string, i: nat, bytes: seq<Byte>)
    requires i == |input|
    ensures bytes + DecodeBytes(input[i..]) == bytes
  {
  }

  lemma NothingDecoded(input: string)
    ensures [] + DecodeBytes(input[0..]) == DecodeBytes(input)
  {
    assert input[0..] == input;
  }

  lemma OneMorePiece(input: string, i: nat, bytes: seq<Byte>)
    requires i < |input|
    ensures var (found, n) := Piece(input[i..]);
      bytes + found + DecodeBytes(input[i + n..]) == bytes + DecodeBytes(input[i..])
  {
    hide Piece;
    var (found, n) := Piece(input[i..]);
    assert input[i..][n..] == input[i + n..];
    assert bytes + found + DecodeBytes(input[i + n..]) == bytes + (found + DecodeBytes(input[i + n..]));
  }

  // ---------- The theorems ----------

  lemma HexReadsBack(n: int)
    requires 0 <= n < 16
    ensures HexValue(HexDigit(n)) == Some(n) && HexDigit(n) != '+'
  {
  }

  lemma EncodedByteReadsBack(b: Byte, rest: string)
    ensures DecodeBytes(EncodeByte(b) + rest) == [b] + DecodeBytes(rest)
  {
    var s := EncodeByte(b) + rest;
    if b < 0x80 && IsUnreserved(b as char) {
      assert s[1..] == rest && Utf8(s[0]) == [b];
    } else {
      HexReadsBack(b / 16);
      HexReadsBack(b % 16);
      assert s[0] == '%' && s[1..] == [HexDigit(b / 16), HexDigit(b % 16)] + rest;
      assert Two(s[1..]) == [HexDigit(b / 16), HexDigit(b % 16)] && s[3..] == rest;
    }
  }

  lemma {:induction false} EncodedReadsBack(b: seq<Byte>)
    ensures DecodeBytes(EncodeBytes(b)) == b
  {
    if b != [] {
      EncodedByteReadsBack(b[0], EncodeBytes(b[1..]));
      EncodedReadsBack(b[1..]);
      assert b == [b[0]] + b[1..];
    }
  }

  /** A byte is written as itself if it is an unreserved character, else as an upper-case triplet. */
  lemma EncodedBytesAre(b: Byte)
    ensures EncodeByte(b) ==
      if 'a' as int <= b <= 'z' as int || 'A' as int <= b <= 'Z' as int || '0' as int <= b <= '9' as int
         || b == '-' as int || b == '_' as int || b == '.' as int || b == '~' as int
      then [b as char]
      else ['%', "0123456789ABCDEF"[b / 16], "0123456789ABCDEF"[b % 16]]
  {
    HexDigitIs(b / 16);
    HexDigitIs(b % 16);
  }

  lemma HexDigitIs(n: int)
    requires 0 <= n < 16
    ensures HexDigit(n) == "0123456789ABCDEF"[n]
  {
  }

  /** The digit for `v` in either case. */
  predicate IsHexOf(c: char, v: int) {
    0 <= v < 16 && (c == "0123456789abcdef"[v] || c == "0123456789ABCDEF"[v])
  }

  lemma HexOfReads(c: char, v: int)
    requires IsHexOf(c, v)
    ensures HexValue(c) == Some(v) && c != '+'
  {
  }

  /** The text stands for the bytes: each is a triplet with digits of either case, a plus sign if it is a blank,
      or part of a character that is neither a plus nor a percent sign. */
  ghost predicate Spells(s: string, b: seq<Byte>)
    decreases |s|
  {
    if s == "" then b == []
    else if s[0] == '%' then
      && |s| >= 3 && b != [] && IsHexOf(s[1], b[0] / 16) && IsHexOf(s[2], b[0] % 16) && Spells(s[3..], b[1..])
    else if s[0] == '+' then b != [] && b[0] == 0x20 && Spells(s[1..], b[1..])
    else Utf8(s[0]) <= b && Spells(s[1..], b[|Utf8(s[0])|..])
  }

  /** Whatever spelling the bytes are given, decoding finds them. */
  lemma {:induction false} SpellingsReadBack(s: string, b: seq<Byte>)
    requires Spells(s, b)
    ensures DecodeBytes(s) == b
    decreases |s|
  {
    if s == "" {
    } else if s[0] == '%' {
      TripletIs(s, b[0]);
      hide Piece, Utf8, IsHexOf;
      SpellingsReadBack(s[3..], b[1..]);
      assert b == [b[0]] + b[1..];
    } else if s[0] == '+' {
      assert Piece(s) == ([0x20], 1);
      hide Piece, Utf8, IsHexOf;
      SpellingsReadBack(s[1..], b[1..]);
      assert b == [b[0]] + b[1..];
    } else {
      assert Piece(s) == (Utf8(s[0]), 1);
      hide Piece, Utf8, IsHexOf;
      SpellingsReadBack(s[1..], b[|Utf8(s[0])|..]);
      assert b == Utf8(s[0]) + b[|Utf8(s[0])|..];
    }
  }

  lemma TripletIs(s: string, b: Byte)
    requires |s| >= 3 && s[0] == '%' && IsHexOf(s[1], b / 16) && IsHexOf(s[2], b % 16)
    ensures Piece(s) == ([b], 3)
  {
    HexOfReads(s[1], b / 16);
    HexOfReads(s[2], b % 16);
    hide IsHexOf, HexValue;
    assert Two(s[1..]) == [s[1], s[2]];
  }

  /** Two characters after a percent sign that are no two digits, nor a plus sign and one, stand for themselves. */
  lemma BadTripletsStay(x: char, y: char, rest: string)
    requires (x != '+' && forall v :: !IsHexOf(x, v)) || forall v :: !IsHexOf(y, v)
    ensures DecodeBytes(['%', x, y] + rest) == Utf8Text(['%', x, y]) + DecodeBytes(rest)
  {
    var s := ['%', x, y] + rest;
    assert s[1..] == [x, y] + rest && Two(s[1..]) == [x, y] && s[3..] == rest;
    NoHex(x);
    NoHex(y);
    assert ParseHex([x, y]) == None;
    hide IsHexOf, HexValue, ParseHex;
    assert ['%', x, y][1..] == [x, y];
    assert Utf8Text(['%', x, y]) == [0x25] + Utf8Text([x, y]);
  }

  lemma NoHex(c: char)
    ensures (forall v :: !IsHexOf(c, v)) ==> HexValue(c) == None
  {
    if HexValue(c).Some? {
      var v := HexValue(c).value;
      assert v < 10 ==> c == "0123456789abcdef"[v];
      assert 'a' <= c <= 'f' ==> c == "0123456789abcdef"[v];
      assert 'A' <= c <= 'F' ==> c == "0123456789ABCDEF"[v];
      assert IsHexOf(c, v);
    }
  }

  /** Every spelling of a text decodes to the text. */
  method DecodeSpelling(s: string, ghost text: string) returns (r: Option<string>)
    requires Spells(s, Utf8Text(text))
    ensures r == Some(text)
  {
    r := UrlDecode(s);
    SpellingsReadBack(s, Utf8Text(text));
    Utf8ReadsBack(text);
  }

  /** Decoding an encoded text gives the text back, whatever it is. */
  method RoundTrip(text: string) returns (encoded: string, decoded: Option<string>)
    ensures decoded == Some(text) && PercentEncoded(encoded)
  {
    encoded := UrlEncode(text);
    decoded := UrlDecode(encoded);
    EncodedReadsBack(Utf8Text(text));
    Utf8ReadsBack(text);
    EncodedIsSafe(Utf8Text(text));
  }

  predicate IsUpperHex(c: char) { '0' <= c <= '9' || 'A' <= c <= 'F' }

  /** Only unreserved characters and upper-case percent triplets. */
  predicate PercentEncoded(s: string) {
    s == "" ||
    (if s[0] == '%' then |s| >= 3 && IsUpperHex(s[1]) && IsUpperHex(s[2]) && PercentEncoded(s[3..])
     else IsUnreserved(s[0]) && PercentEncoded(s[1..]))
  }

  lemma {:induction false} EncodedIsSafe(b: seq<Byte>)
    ensures PercentEncoded(EncodeBytes(b))
  {
    if b != [] {
      var s, rest := EncodeBytes(b), EncodeBytes(b[1..]);
      EncodedIsSafe(b[1..]);
      assert s[|EncodeByte(b[0])|..] == rest;
    }
  }

  /** Percent-encoded text in which no unreserved character is written as a triplet. */
  predicate Canonical(s: string) {
    s == "" ||
    (if s[0] == '%' then
       && |s| >= 3 && IsUpperHex(s[1]) && IsUpperHex(s[2])
       && !IsUnreservedByte(HexValue(s[1]).value * 16 + HexValue(s[2]).value)
       && Canonical(s[3..])
     else IsUnreserved(s[0]) && Canonical(s[1..]))
  }

  predicate IsUnreservedByte(b: Byte) { b < 0x80 && IsUnreserved(b as char) }

  lemma {:induction false} EncodedIsCanonical(b: seq<Byte>)
    ensures Canonical(EncodeBytes(b))
  {
    if b != [] {
      var s := EncodeBytes(b);
      EncodedIsCanonical(b[1..]);
      HexReadsBack(b[0] / 16);
      HexReadsBack(b[0] % 16);
      assert s[|EncodeByte(b[0])|..] == EncodeBytes(b[1..]);
    }
  }

  lemma UpperHexReadsBack(c: char)
    requires IsUpperHex(c)
    ensures HexDigit(HexValue(c).value) == c && c != '+'
  {
  }

  lemma CanonicalTriplet(s: string)
    requires s != "" && s[0] == '%' && Canonical(s)
    ensures DecodeBytes(s) != [] && EncodeByte(DecodeBytes(s)[0]) == s[..3] && DecodeBytes(s)[1..] == DecodeBytes(s[3..])
  {
    UpperHexReadsBack(s[1]);
    UpperHexReadsBack(s[2]);
    assert Two(s[1..]) == [s[1], s[2]];
    assert s[..3] == ['%', s[1], s[2]];
  }

  /** The canonical texts are exactly those that encoding gives back after decoding. */
  lemma {:induction false} CanonicalReencodes(s: string)
    ensures EncodeBytes(DecodeBytes(s)) == s <==> Canonical(s)
  {
    EncodedIsCanonical(DecodeBytes(s));
    if s != "" && Canonical(s) {
      if s[0] == '%' {
        CanonicalTriplet(s);
        CanonicalReencodes(s[3..]);
        assert s == s[..3] + s[3..];
      } else {
        assert Utf8(s[0]) == [s[0] as int] && EncodeByte(s[0] as int) == [s[0]];
        CanonicalReencodes(s[1..]);
        assert DecodeBytes(s)[1..] == DecodeBytes(s[1..]);
        assert s == [s[0]] + s[1..];
      }
    }
  }

  /** Encoding loses nothing: different texts have different encodings. */
  lemma EncodingIsInjective(a: string, b: string)
    requires EncodeBytes(Utf8Text(a)) == EncodeBytes(Utf8Text(b))
    ensures a == b
  {
    EncodedReadsBack(Utf8Text(a));
    EncodedReadsBack(Utf8Text(b));
    Utf8ReadsBack(a);
    Utf8ReadsBack(b);
  }

  /** Decoding accepts more than triplets: a missing or signed digit still reads as a number, and a
      bad triplet stands for itself. */
  lemma LenientDecoding()
    ensures DecodeBytes("%5") == [5] && DecodeBytes("%+5") == [5] && DecodeBytes("%zz") == Utf8Text("%zz")
  {
    var a, b, c := "%5", "%+5", "%zz";
    assert a[1..] == "5" && a[2..] == "" && b[1..] == "+5" && b[3..] == "" && c[1..] == "zz" && c[3..] == "";
    assert Piece(a) == ([5], 2) && Piece(b) == ([5], 3);
    assert Piece(c) == ([0x25] + Utf8Text("zz"), 3);
    assert Utf8Text(c) == Utf8('%') + Utf8Text("zz");
  }
}
