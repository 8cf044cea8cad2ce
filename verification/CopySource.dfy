/**
 * The `x-amz-copy-source` header: `[/]bucket/url-encoded-key[?versionId=...]`.
 * Keys are their UTF-8 bytes, which is what percent-encoding and S3 both work on.
 */
module CopySource {
  import opened Optional
  import opened Text

  type Byte = b: int | 0 <= b < 256
  type Bytes = seq<Byte>

  const SLASH: Byte := 0x2F
  const PERCENT: Byte := 0x25
  const QUESTION: Byte := 0x3F

  /** The characters `encodeURIComponent` leaves alone: letters, digits and `-_.!~*'()`. */
  predicate Unreserved(b: Byte) {
    || 0x30 <= b <= 0x39 || 0x41 <= b <= 0x5A || 0x61 <= b <= 0x7A
    || b in {0x2D, 0x5F, 0x2E, 0x21, 0x7E, 0x2A, 0x27, 0x28, 0x29}
  }

  function HexDigit(n: nat): Byte
    requires n < 16
  {
    if n < 10 then 0x30 + n else 0x41 + n - 10
  }

  function EncodeByte(b: Byte): Bytes {
    if Unreserved(b) then [b] else [PERCENT, HexDigit(b / 16), HexDigit(b % 16)]
  }

  /** `encodeURIComponent`. */
  function Encode(s: Bytes): Bytes {
    if s == [] then [] else EncodeByte(s[0]) + Encode(s[1..])
  }

  function EncodeEach(parts: seq<Bytes>): (r: seq<Bytes>)
    ensures |r| == |parts|
    ensures forall i :: 0 <= i < |parts| ==> r[i] == Encode(parts[i])
  {
    if parts == [] then [] else [Encode(parts[0])] + EncodeEach(parts[1..])
  }

  /** `key.split("/").map(encodeURIComponent).join("/")` */
  function EncodePath(key: Bytes): Bytes {
    Join(EncodeEach(Split(key, SLASH)), SLASH)
  }

  function EncodeCopySource(bucket: Bytes, key: Bytes): Bytes {
    bucket + [SLASH] + EncodePath(key)
  }

  /** S3's reading of the encoded key; `None` when an escape is malformed. */
  function Decode(s: Bytes): Option<Bytes> {
    if s == [] then Some([])
    else if s[0] == PERCENT then
      if |s| < 3 || HexValue(s[1]).None? || HexValue(s[2]).None? then None
      else
        var rest := Decode(s[3..]);
        if rest.None? then None else Some([16 * HexValue(s[1]).value + HexValue(s[2]).value] + rest.value)
    else
      var rest := Decode(s[1..]);
      if rest.None? then None else Some([s[0]] + rest.value)
  }

  /** What S3 reads in the header: bucket, key and the query after it. */
  datatype Source = Source(bucket: Bytes, key: Bytes, query: Option<Bytes>)

  function WithoutLead(header: Bytes): Bytes {
    if header != [] && header[0] == SLASH then header[1..] else header
  }

  function ReadCopySource(header: Bytes): Option<Source> {
    var (bucket, path) := Cut(WithoutLead(header), SLASH);
    if path.None? then None else ReadPath(bucket, path.value)
  }

  function ReadPath(bucket: Bytes, path: Bytes): Option<Source> {
    var (key, query) := Cut(path, QUESTION);
    match Decode(key)
    case None => None
    case Some(k) => Some(Source(bucket, k, query))
  }

  /** `prefixCopySource`; `None` when the source names no key, which the code throws on. */
  function PrefixCopySource(header: Bytes, prefix: Bytes): Option<Bytes> {
    var rest := WithoutLead(header);
    var lead := header[..|header| - |rest|];
    var (bucket, path) := Cut(rest, SLASH);
    if path.None? then None
    else Some(lead + bucket + [SLASH] + EncodePath(prefix) + path.value)
  }

  // ----- Path encoding keeps slashes and works byte by byte -----

  function PathByte(b: Byte): Bytes {
    if b == SLASH then [SLASH] else EncodeByte(b)
  }

  function PathBytes(s: Bytes): Bytes {
    if s == [] then [] else PathByte(s[0]) + PathBytes(s[1..])
  }

  lemma {:induction false} EncodePathByBytes(s: Bytes)
    ensures EncodePath(s) == PathBytes(s)
  {
    if s != [] {
      EncodePathByBytes(s[1..]);
      var rest := Split(s[1..], SLASH);
      if s[0] == SLASH {
        assert ([[]] + rest)[1..] == rest;
        assert EncodeEach([[]] + rest)[1..] == EncodeEach(rest);
      } else {
        var parts := [[s[0]] + rest[0]] + rest[1..];
        assert parts[1..] == rest[1..];
        assert ([s[0]] + rest[0])[1..] == rest[0];
        assert Encode(parts[0]) == EncodeByte(s[0]) + Encode(rest[0]);
        assert EncodeEach(parts) == [EncodeByte(s[0]) + EncodeEach(rest)[0]] + EncodeEach(rest)[1..];
      }
    }
  }

  lemma {:induction false} PathBytesConcat(a: Bytes, b: Bytes)
    ensures PathBytes(a + b) == PathBytes(a) + PathBytes(b)
  {
    if a == [] {
      assert a + b == b;
    } else {
      assert (a + b)[1..] == a[1..] + b;
      PathBytesConcat(a[1..], b);
    }
  }

  lemma {:induction false} PathBytesNoQuestion(s: Bytes)
    ensures QUESTION !in PathBytes(s)
  {
    if s != [] {
      PathBytesNoQuestion(s[1..]);
    }
  }

  function Prepend(a: Bytes, r: Option<Bytes>): Option<Bytes> {
    if r.None? then None else Some(a + r.value)
  }

  lemma DecodePathByte(b: Byte, tail: Bytes)
    ensures Decode(PathByte(b) + tail) == Prepend([b], Decode(tail))
  {
    var e := PathByte(b);
    if |e| == 1 {
      assert (e + tail)[1..] == tail;
    } else {
      assert (e + tail)[3..] == tail;
    }
  }

  /** Decoding an encoded prefix gives the prefix, and then whatever the rest decodes to. */
  lemma {:induction false} DecodeAfterPath(s: Bytes, rest: Bytes)
    ensures Decode(PathBytes(s) + rest) == Prepend(s, Decode(rest))
  {
    if s == [] {
      assert PathBytes(s) + rest == rest;
      assert Decode(rest).Some? ==> s + Decode(rest).value == Decode(rest).value;
    } else {
      var tail := PathBytes(s[1..]) + rest;
      DecodeAfterPath(s[1..], rest);
      assert PathBytes(s) + rest == PathByte(s[0]) + tail;
      DecodePathByte(s[0], tail);
      PrependTwice([s[0]], s[1..], Decode(rest));
      assert [s[0]] + s[1..] == s;
    }
  }

  lemma PrependTwice(a: Bytes, b: Bytes, r: Option<Bytes>)
    ensures Prepend(a, Prepend(b, r)) == Prepend(a + b, r)
  {
    assert r.Some? ==> a + (b + r.value) == (a + b) + r.value;
  }

  const HEX: string := "0123456789ABCDEF"

  predicate IsPlain(c: char) {
    'A' <= c <= 'Z' || 'a' <= c <= 'z' || '0' <= c <= '9' || c in "-_.!~*'()"
  }

  /** A byte of a key stands for itself if it is a plain character or a slash; else it is escaped in capitals. */
  lemma PathByteExactly(b: Byte)
    ensures EncodePath([b]) ==
            if IsPlain(b as char) || b == SLASH then [b]
            else [0x25, HEX[b / 16] as int, HEX[b % 16] as int]
  {
    EncodePathByBytes([b]);
    assert PathBytes([b]) == PathByte(b) + [];
    PlainExactly(b);
    HexExactly(b / 16);
    HexExactly(b % 16);
  }

  lemma PlainExactly(b: Byte)
    ensures Unreserved(b) <==> IsPlain(b as char)
    ensures !Unreserved(SLASH)
  {
  }

  lemma HexExactly(n: nat)
    requires n < 16
    ensures HexDigit(n) == HEX[n] as int
  {
  }

  // ----- Results -----

  /** S3 reads an encoded source back as the bucket and the very key, for every key. */
  lemma ReadEncodedCopySource(bucket: Bytes, key: Bytes)
    requires bucket != [] && SLASH !in bucket
    ensures ReadCopySource(EncodeCopySource(bucket, key)) == Some(Source(bucket, key, None))
  {
    EncodePathByBytes(key);
    CutAt(bucket, PathBytes(key), SLASH);
    PathBytesNoQuestion(key);
    CutNone(PathBytes(key), QUESTION);
    DecodeAfterPath(key, []);
    assert PathBytes(key) + [] == PathBytes(key) && key + [] == key;
  }

  lemma PrefixPlainSource(bucket: Bytes, path: Bytes, prefix: Bytes)
    requires bucket != [] && SLASH !in bucket
    ensures PrefixCopySource(bucket + [SLASH] + path, prefix) == Some(bucket + [SLASH] + EncodePath(prefix) + path)
  {
    var header := bucket + [SLASH] + path;
    assert header[0] == bucket[0] && bucket[0] in bucket;
    assert WithoutLead(header) == header;
    CutAt(bucket, path, SLASH);
    assert [] + bucket == bucket;
  }

  /** The text: the encoded prefix goes in behind the bucket's slash, and nothing else moves. */
  lemma PrefixGoesBehindTheBucket(bucket: Bytes, path: Bytes, prefix: Bytes)
    requires SLASH !in bucket
    ensures PrefixCopySource([SLASH] + bucket + [SLASH] + path, prefix)
         == Some([SLASH] + bucket + [SLASH] + EncodePath(prefix) + path)
    ensures bucket != [] ==>
      PrefixCopySource(bucket + [SLASH] + path, prefix) == Some(bucket + [SLASH] + EncodePath(prefix) + path)
  {
    var header := [SLASH] + bucket + [SLASH] + path;
    assert header[1..] == bucket + [SLASH] + path;
    CutAt(bucket, path, SLASH);
    assert header[..1] == [SLASH];
    if bucket != [] {
      PrefixPlainSource(bucket, path, prefix);
    }
  }

  /** It throws exactly when there is no slash, one in front aside. */
  lemma ThrowsExactly(header: Bytes, prefix: Bytes)
    ensures PrefixCopySource(header, prefix).None? <==> forall i :: 0 < i < |header| ==> header[i] != SLASH
  {
    var rest := WithoutLead(header);
    if SLASH in rest {
      var i :| 0 <= i < |rest| && rest[i] == SLASH;
      assert header[|header| - |rest| + i] == SLASH;
    }
    assert forall i :: 0 < i < |header| ==> header[i] == rest[i - (|header| - |rest|)];
  }

  lemma EncodePathConcat(a: Bytes, b: Bytes)
    ensures EncodePath(a + b) == EncodePath(a) + EncodePath(b)
  {
    EncodePathByBytes(a);
    EncodePathByBytes(b);
    EncodePathByBytes(a + b);
    PathBytesConcat(a, b);
  }

  /** Prefixing an encoded source is encoding the prefixed key. */
  lemma PrefixEncodedCopySource(bucket: Bytes, key: Bytes, prefix: Bytes)
    requires bucket != [] && SLASH !in bucket
    ensures PrefixCopySource(EncodeCopySource(bucket, key), prefix) == Some(EncodeCopySource(bucket, prefix + key))
  {
    PrefixPlainSource(bucket, EncodePath(key), prefix);
    EncodePathConcat(prefix, key);
    Regrouped(bucket + [SLASH], EncodePath(prefix), EncodePath(key));
  }

  lemma Regrouped(a: Bytes, b: Bytes, c: Bytes)
    ensures (a + b) + c == a + (b + c)
  {
  }

  /** For any header whatever, S3 reads the prefixed one as the same source with the prefix before its key. */
  lemma ReadPrefixedCopySource(header: Bytes, prefix: Bytes)
    ensures PrefixCopySource(header, prefix).None? ==> ReadCopySource(header).None?
    ensures PrefixCopySource(header, prefix).Some? ==>
      var source := ReadCopySource(header);
      ReadCopySource(PrefixCopySource(header, prefix).value) ==
      if source.None? then None else Some(source.value.(key := prefix + source.value.key))
  {
    var rest := WithoutLead(header);
    var (bucket, path) := Cut(rest, SLASH);
    if path.Some? {
      var lead := header[..|header| - |rest|];
      EncodePathByBytes(prefix);
      Regrouped(lead + bucket + [SLASH], PathBytes(prefix), path.value);
      LeadIsSkipped(header, lead, bucket, path.value, PathBytes(prefix) + path.value);
      ReadPrefixedPath(bucket, prefix, path.value);
    }
  }

  /** With another path behind the same lead and bucket, the header is read with that path. */
  lemma LeadIsSkipped(header: Bytes, lead: Bytes, bucket: Bytes, path: Bytes, path': Bytes)
    requires WithoutLead(header) == bucket + [SLASH] + path && SLASH !in bucket
    requires lead == header[..|header| - |WithoutLead(header)|]
    ensures ReadCopySource(lead + bucket + [SLASH] + path') == ReadPath(bucket, path')
  {
    var rest' := bucket + [SLASH] + path';
    assert lead + bucket + [SLASH] + path' == lead + rest';
    assert WithoutLead(lead + rest') == rest';
    CutAt(bucket, path', SLASH);
  }

  lemma ReadPrefixedPath(bucket: Bytes, prefix: Bytes, path: Bytes)
    ensures ReadPath(bucket, PathBytes(prefix) + path) ==
            if ReadPath(bucket, path).None? then None
            else Some(ReadPath(bucket, path).value.(key := prefix + ReadPath(bucket, path).value.key))
  {
    CutAfterPath(prefix, path);
    DecodeAfterPath(prefix, Cut(path, QUESTION).0);
  }

  lemma CutAfterPath(prefix: Bytes, path: Bytes)
    ensures Cut(PathBytes(prefix) + path, QUESTION)
      == (PathBytes(prefix) + Cut(path, QUESTION).0, Cut(path, QUESTION).1)
  {
    PathBytesNoQuestion(prefix);
    CutBehind(PathBytes(prefix), path);
  }

  lemma CutBehind(front: Bytes, path: Bytes)
    requires QUESTION !in front
    ensures Cut(front + path, QUESTION) == (front + Cut(path, QUESTION).0, Cut(path, QUESTION).1)
  {
    var (key, query) := Cut(path, QUESTION);
    if query.Some? {
      assert front + path == (front + key) + [QUESTION] + query.value;
      CutAt(front + key, query.value, QUESTION);
    } else {
      CutNone(front + path, QUESTION);
    }
  }
}
