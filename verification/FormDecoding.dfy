/**
 * Two readings of a percent-encoded name: `decodeURIComponent`, which throws on
 * anything malformed, and the lenient one of `URLSearchParams` (section 5.1 of
 * the WHATWG URL Standard). Strings are sequences of Unicode scalar values.
 */
module FormDecoding {
  import opened Optional
  import opened Text

  type Byte = b: int | 0 <= b < 256

  const REPLACEMENT: char := '\U{FFFD}'

  // ----- UTF-8 -----

  function Utf8(c: char): seq<Byte> {
    var n := c as int;
    if n < 0x80 then [n]
    else if n < 0x800 then [0xC0 + n / 64, 0x80 + n % 64]
    else if n < 0x10000 then [0xE0 + n / 4096, 0x80 + n / 64 % 64, 0x80 + n % 64]
    else [0xF0 + n / 262144, 0x80 + n / 4096 % 64, 0x80 + n / 64 % 64, 0x80 + n % 64]
  }

  function Utf8Encode(s: string): seq<Byte> {
    if s == "" then [] else Utf8(s[0]) + Utf8Encode(s[1..])
  }

  /** How many bytes a sequence with this lead byte has; 0 for no lead byte. */
  function Need(lead: Byte): nat {
    if lead < 0x80 then 1
    else if 0xC2 <= lead <= 0xDF then 2
    else if 0xE0 <= lead <= 0xEF then 3
    else if 0xF0 <= lead <= 0xF4 then 4
    else 0
  }

  predicate Continues(b: Byte) {
    0x80 <= b <= 0xBF
  }

  /** The second byte excludes overlong forms, surrogates and values past U+10FFFF. */
  predicate SecondOk(lead: Byte, b: Byte) {
    && Continues(b)
    && (lead == 0xE0 ==> b >= 0xA0)
    && (lead == 0xED ==> b <= 0x9F)
    && (lead == 0xF0 ==> b >= 0x90)
    && (lead == 0xF4 ==> b <= 0x8F)
  }

  /** How many leading bytes begin a well-formed sequence. */
  function Good(s: seq<Byte>): (n: nat)
    ensures n <= |s|
    ensures s != [] ==> n <= Need(s[0])
  {
    if s == [] || Need(s[0]) == 0 then 0
    else if Need(s[0]) == 1 || |s| < 2 || !SecondOk(s[0], s[1]) then 1
    else if Need(s[0]) == 2 || |s| < 3 || !Continues(s[2]) then 2
    else if Need(s[0]) == 3 || |s| < 4 || !Continues(s[3]) then 3
    else 4
  }

  predicate WellFormed(s: seq<Byte>) {
    s != [] && Need(s[0]) > 0 && Good(s) == Need(s[0])
  }

  function Value2(a: int, b: int): int { (a - 0xC0) * 64 + (b - 0x80) }

  function Value3(a: int, b: int, c: int): int { (a - 0xE0) * 4096 + (b - 0x80) * 64 + (c - 0x80) }

  function Value4(a: int, b: int, c: int, d: int): int {
    (a - 0xF0) * 262144 + (b - 0x80) * 4096 + (c - 0x80) * 64 + (d - 0x80)
  }

  /** The scalar value that the leading sequence encodes. */
  function Scalar(s: seq<Byte>): char
    requires WellFormed(s)
  {
    if Need(s[0]) == 1 then s[0] as char
    else if Need(s[0]) == 2 then Value2(s[0], s[1]) as char
    else if Need(s[0]) == 3 then Value3(s[0], s[1], s[2]) as char
    else Value4(s[0], s[1], s[2], s[3]) as char
  }

  /** UTF-8 decoding with replacement: a maximal ill-formed piece becomes one U+FFFD. */
  function Utf8Decode(s: seq<Byte>): string
    decreases |s|
  {
    if s == [] then ""
    else if WellFormed(s) then [Scalar(s)] + Utf8Decode(s[Need(s[0])..])
    else [REPLACEMENT] + Utf8Decode(s[if Good(s) == 0 then 1 else Good(s)..])
  }

  lemma Split64(n: nat)
    ensures n == n / 64 * 64 + n % 64 && n / 4096 == n / 64 / 64 && n / 262144 == n / 64 / 64 / 64
  {
  }

  lemma Scalar2(n: nat)
    requires 0x80 <= n < 0x800
    ensures var a, b := 0xC0 + n / 64, 0x80 + n % 64;
      0xC2 <= a <= 0xDF && Continues(b) && Value2(a, b) == n
  {
  }

  lemma Scalar3(n: nat)
    requires 0x800 <= n < 0x10000 && !(0xD800 <= n < 0xE000)
    ensures var a, b, c := 0xE0 + n / 4096, 0x80 + n / 64 % 64, 0x80 + n % 64;
      0xE0 <= a <= 0xEF && SecondOk(a, b) && Continues(c) && Value3(a, b, c) == n
  {
    Split64(n);
    Split64(n / 64);
  }

  lemma Scalar4(n: nat)
    requires 0x10000 <= n < 0x110000
    ensures var a, b, c, d := 0xF0 + n / 262144, 0x80 + n / 4096 % 64, 0x80 + n / 64 % 64, 0x80 + n % 64;
      0xF0 <= a <= 0xF4 && SecondOk(a, b) && Continues(c) && Continues(d) && Value4(a, b, c, d) == n
  {
    Split64(n);
    Split64(n / 64);
    Split64(n / 64 / 64);
  }

  lemma ScalarOfEncoding(c: char, rest: seq<Byte>)
    ensures WellFormed(Utf8(c) + rest) && Need(Utf8(c)[0]) == |Utf8(c)| && Scalar(Utf8(c) + rest) == c
  {
    var n := c as int;
    if n < 0x80 {
    } else if n < 0x800 {
      Scalar2(n);
    } else if n < 0x10000 {
      Scalar3(n);
    } else {
      Scalar4(n);
    }
  }

  lemma DecodeEncodedChar(c: char, rest: seq<Byte>)
    ensures Utf8Decode(Utf8(c) + rest) == [c] + Utf8Decode(rest)
  {
    ScalarOfEncoding(c, rest);
    assert (Utf8(c) + rest)[|Utf8(c)|..] == rest;
  }

  lemma GoodOfTruncated(c: char, k: nat, rest: seq<Byte>)
    requires 1 <= k < |Utf8(c)| && (rest == [] || !Continues(rest[0]))
    ensures Good(Utf8(c)[..k] + rest) == k && Need(Utf8(c)[0]) > k
  {
    var n := c as int;
    if n < 0x800 {
      Scalar2(n);
    } else if n < 0x10000 {
      Scalar3(n);
    } else {
      Scalar4(n);
    }
  }

  /** An encoding that is cut short is one replacement character, however many of its bytes are there. */
  lemma TruncatedIsOneReplacement(c: char, k: nat, rest: seq<Byte>)
    requires 1 <= k < |Utf8(c)| && (rest == [] || !Continues(rest[0]))
    ensures Utf8Decode(Utf8(c)[..k] + rest) == [REPLACEMENT] + Utf8Decode(rest)
  {
    GoodOfTruncated(c, k, rest);
    assert (Utf8(c)[..k] + rest)[k..] == rest;
  }

  // ----- Percent escapes -----

  function ByteEscape(s: seq<Byte>): Option<Byte> {
    if |s| >= 3 && s[0] == 0x25 && HexValue(s[1]).Some? && HexValue(s[2]).Some? then
      Some(16 * HexValue(s[1]).value + HexValue(s[2]).value)
    else None
  }

  /** The URL Standard's percent-decode: what is no escape stays. */
  function PercentDecode(s: seq<Byte>): seq<Byte>
    decreases |s|
  {
    if s == [] then []
    else if ByteEscape(s).Some? then [ByteEscape(s).value] + PercentDecode(s[3..])
    else [s[0]] + PercentDecode(s[1..])
  }

  function Escape(s: string): Option<Byte> {
    if |s| >= 3 && s[0] == '%' && HexValue(s[1] as int).Some? && HexValue(s[2] as int).Some? then
      Some(16 * HexValue(s[1] as int).value + HexValue(s[2] as int).value)
    else None
  }

  /** The bytes a name stands for after percent-decoding. */
  function NameBytes(s: string): seq<Byte> {
    PercentDecode(Utf8Encode(s))
  }

  function Lenient(s: string): string {
    Utf8Decode(NameBytes(s))
  }

  /** The bytes of `n` escapes in a row. */
  function Escapes(s: string, n: nat): (r: Option<seq<Byte>>)
    ensures r.Some? ==> |r.value| == n && 3 * n <= |s|
  {
    if n == 0 then Some([])
    else if Escape(s).None? then None
    else
      var rest := Escapes(s[3..], n - 1);
      if rest.None? then None else Some([Escape(s).value] + rest.value)
  }

  /** `decodeURIComponent`; `None` is a thrown URIError. */
  function Strict(s: string): Option<string>
    decreases |s|
  {
    if s == "" then Some("")
    else if s[0] != '%' then
      var rest := Strict(s[1..]);
      if rest.None? then None else Some([s[0]] + rest.value)
    else if Escape(s).None? || Need(Escape(s).value) == 0 then None
    else
      var n := Need(Escape(s).value);
      var octets := Escapes(s, n);
      if octets.None? || !WellFormed(octets.value) then None
      else
        var rest := Strict(s[3 * n..]);
        if rest.None? then None else Some([Scalar(octets.value)] + rest.value)
  }

  lemma Utf8NoEscape(c: char, rest: seq<Byte>)
    requires c != '%'
    ensures PercentDecode(Utf8(c) + rest) == Utf8(c) + PercentDecode(rest)
  {
    NoEscapes(Utf8(c), rest);
  }

  lemma {:induction false} NoEscapes(a: seq<Byte>, rest: seq<Byte>)
    requires 0x25 !in a
    ensures PercentDecode(a + rest) == a + PercentDecode(rest)
  {
    if a == [] {
      assert a + rest == rest;
    } else {
      assert (a + rest)[1..] == a[1..] + rest;
      NoEscapes(a[1..], rest);
    }
  }

  lemma BytesOfPlain(s: string)
    requires s != "" && s[0] != '%'
    ensures NameBytes(s) == Utf8(s[0]) + NameBytes(s[1..])
  {
    Utf8NoEscape(s[0], Utf8Encode(s[1..]));
  }

  /** An ASCII byte at a position of an encoding is that character. */
  lemma AsciiHead(s: string)
    ensures s == "" <==> Utf8Encode(s) == []
    ensures s != "" && s[0] as int < 0x80 ==> Utf8Encode(s) == [s[0] as int] + Utf8Encode(s[1..])
    ensures s != "" && s[0] as int >= 0x80 ==> Utf8Encode(s)[0] >= 0xC0
  {
  }

  lemma EscapeAgrees(s: string)
    requires s != "" && s[0] == '%'
    ensures ByteEscape(Utf8Encode(s)) == Escape(s)
    ensures Escape(s).Some? ==> Utf8Encode(s)[3..] == Utf8Encode(s[3..])
  {
    AsciiHead(s);
    TwoHex(s[1..]);
    var bytes := Utf8Encode(s);
    assert bytes[0] == 0x25 && bytes[1..] == Utf8Encode(s[1..]);
    if StartsHex(s[1..]) && StartsHex(s[1..][1..]) {
      assert s[1..][2..] == s[3..];
      assert bytes == [s[0] as int, s[1] as int, s[2] as int] + Utf8Encode(s[3..]);
    } else {
      NoByteEscape(bytes);
      assert Escape(s).None?;
    }
  }

  lemma NoByteEscape(bytes: seq<Byte>)
    requires bytes != []
    requires var tail := bytes[1..]; !(|tail| >= 2 && HexValue(tail[0]).Some? && HexValue(tail[1]).Some?)
    ensures ByteEscape(bytes).None?
  {
    assert |bytes| >= 3 ==> bytes[1..][0] == bytes[1] && bytes[1..][1] == bytes[2];
  }

  predicate StartsHex(s: string) {
    s != "" && HexValue(s[0] as int).Some?
  }

  lemma OneHex(s: string)
    ensures StartsHex(s) <==> Utf8Encode(s) != [] && HexValue(Utf8Encode(s)[0]).Some?
    ensures StartsHex(s) ==> Utf8Encode(s) == [s[0] as int] + Utf8Encode(s[1..])
  {
    AsciiHead(s);
  }

  lemma TwoHex(s: string)
    ensures StartsHex(s) && StartsHex(s[1..]) <==>
            |Utf8Encode(s)| >= 2 && HexValue(Utf8Encode(s)[0]).Some? && HexValue(Utf8Encode(s)[1]).Some?
    ensures StartsHex(s) && StartsHex(s[1..]) ==>
            Utf8Encode(s) == [s[0] as int, s[1] as int] + Utf8Encode(s[2..])
  {
    OneHex(s);
    if StartsHex(s) {
      OneHex(s[1..]);
      assert |s| >= 2 ==> s[1..][1..] == s[2..];
    }
  }

  lemma BytesOfEscape(s: string)
    requires Escape(s).Some?
    ensures NameBytes(s) == [Escape(s).value] + NameBytes(s[3..])
  {
    EscapeAgrees(s);
  }

  lemma BytesOfMalformed(s: string)
    requires s != "" && s[0] == '%' && Escape(s).None?
    ensures NameBytes(s) != [] && NameBytes(s)[0] == 0x25
  {
    EscapeAgrees(s);
    AsciiHead(s);
  }

  /** A continuation byte in front can only come from an escape. */
  lemma ContinuationIsEscape(s: string)
    requires NameBytes(s) != [] && Continues(NameBytes(s)[0])
    ensures Escape(s).Some? && NameBytes(s) == [Escape(s).value] + NameBytes(s[3..])
  {
    if s[0] != '%' {
      BytesOfPlain(s);
    } else if Escape(s).None? {
      BytesOfMalformed(s);
    } else {
      BytesOfEscape(s);
    }
  }

  /** Well-formed leading bytes after an escaped lead byte were all escaped. */
  lemma {:induction false} ContinuationsAreEscapes(s: string, n: nat)
    requires n <= |NameBytes(s)| && forall i :: 0 <= i < n ==> Continues(NameBytes(s)[i])
    ensures Escapes(s, n) == Some(NameBytes(s)[..n])
    ensures NameBytes(s[3 * n..]) == NameBytes(s)[n..]
  {
    if n > 0 {
      ContinuationIsEscape(s);
      var bytes, rest := NameBytes(s), NameBytes(s[3..]);
      FirstOff(bytes, Escape(s).value, rest, n);
      forall i | 0 <= i < n - 1 ensures Continues(rest[i]) {
        assert rest[i] == bytes[i + 1];
      }
      ContinuationsAreEscapes(s[3..], n - 1);
      OneMoreEscape(s, n, rest[..n - 1]);
    }
  }

  lemma OneMoreEscape(s: string, n: nat, rest: seq<Byte>)
    requires n > 0 && Escape(s).Some? && Escapes(s[3..], n - 1) == Some(rest)
    ensures Escapes(s, n) == Some([Escape(s).value] + rest) && 3 * n <= |s|
    ensures s[3..][3 * (n - 1)..] == s[3 * n..]
  {
  }

  lemma FirstOff(bytes: seq<Byte>, first: Byte, rest: seq<Byte>, n: nat)
    requires bytes == [first] + rest && 1 <= n <= |bytes|
    ensures bytes[..n] == [first] + rest[..n - 1] && bytes[n..] == rest[n - 1..]
  {
  }

  lemma {:induction false} EscapesAreBytes(s: string, n: nat)
    requires Escapes(s, n).Some?
    ensures n <= |NameBytes(s)| && NameBytes(s)[..n] == Escapes(s, n).value
    ensures NameBytes(s[3 * n..]) == NameBytes(s)[n..]
  {
    if n > 0 {
      BytesOfEscape(s);
      EscapesAreBytes(s[3..], n - 1);
      assert s[3..][3 * (n - 1)..] == s[3 * n..];
      FirstOff(NameBytes(s), Escape(s).value, NameBytes(s[3..]), n);
    } else {
      assert s[0..] == s;
    }
  }

  /** Whether a sequence is well formed, and its value, is decided by its own bytes. */
  lemma WellFormedPrefix(s: seq<Byte>, n: nat)
    requires s != [] && n == Need(s[0]) && 1 <= n <= |s|
    ensures WellFormed(s[..n]) <==> WellFormed(s)
    ensures WellFormed(s) ==> Scalar(s[..n]) == Scalar(s)
  {
  }

  /** An escaped sequence is read alike: either strict decoding fails on it or both yield its character. */
  lemma EscapedHead(s: string)
    requires Escape(s).Some? && Need(Escape(s).value) > 0
    ensures var n, octets := Need(Escape(s).value), Escapes(s, Need(Escape(s).value));
      if octets.None? || !WellFormed(octets.value) then !WellFormed(NameBytes(s))
      else
        && WellFormed(NameBytes(s)) && Scalar(NameBytes(s)) == Scalar(octets.value)
        && NameBytes(s)[n..] == NameBytes(s[3 * n..])
  {
    BytesOfEscape(s);
    var n, bytes := Need(Escape(s).value), NameBytes(s);
    if Escapes(s, n).Some? {
      EscapesAreBytes(s, n);
      WellFormedPrefix(bytes, n);
    } else if WellFormed(bytes) {
      assert bytes[0] == Escape(s).value && bytes[1..] == NameBytes(s[3..]);
      var rest := NameBytes(s[3..]);
      assert forall i :: 0 <= i < n - 1 ==> rest[i] == bytes[i + 1] && Continues(rest[i]);
      ContinuationsAreEscapes(s[3..], n - 1);
    }
  }

  /** A reading that shows it came from something malformed: a literal percent sign or a replacement character. */
  predicate Spoiled(s: string) {
    '%' in s || REPLACEMENT in s
  }

  lemma SpoiledByHead(bytes: seq<Byte>)
    requires bytes != [] && (!WellFormed(bytes) || bytes[0] == 0x25)
    ensures Spoiled(Utf8Decode(bytes))
  {
    assert Utf8Decode(bytes)[0] in Utf8Decode(bytes);
  }

  /**
   * Where strict decoding succeeds the lenient reading is the same; where it
   * throws, the lenient reading carries a percent sign or a U+FFFD.
   */
  lemma {:induction false} StrictAgainstLenient(s: string)
    ensures Strict(s).Some? ==> Lenient(s) == Strict(s).value
    ensures Strict(s).None? ==> Spoiled(Lenient(s))
    decreases |s|
  {
    if s == "" {
    } else if s[0] != '%' {
      BytesOfPlain(s);
      DecodeEncodedChar(s[0], NameBytes(s[1..]));
      StrictAgainstLenient(s[1..]);
    } else if Escape(s).None? {
      BytesOfMalformed(s);
      SpoiledByHead(NameBytes(s));
    } else {
      BytesOfEscape(s);
      var n := Need(Escape(s).value);
      if n > 0 {
        EscapedHead(s);
      }
      if n == 0 || !WellFormed(NameBytes(s)) {
        SpoiledByHead(NameBytes(s));
      } else {
        StrictAgainstLenient(s[3 * n..]);
      }
    }
  }

  /** Strict decoding can only fail on a string that has a percent sign. */
  lemma {:induction false} StrictWithoutPercent(s: string)
    requires '%' !in s
    ensures Strict(s) == Some(s)
  {
    if s != "" {
      StrictWithoutPercent(s[1..]);
      assert [s[0]] + s[1..] == s;
    }
  }

  /** Decoding something nonempty yields something nonempty. */
  lemma LenientNonEmpty(s: string)
    ensures Lenient(s) == "" <==> s == ""
  {
    AsciiHead(s);
  }

  /** A string without percent signs reads as itself. */
  lemma LenientPlain(s: string)
    requires '%' !in s
    ensures Lenient(s) == s
  {
    StrictWithoutPercent(s);
    StrictAgainstLenient(s);
  }
}
