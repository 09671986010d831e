/** Blob encodings of the store. A stored blob carries a small integer tag
    (`enc_type`) saying whether it is plain or compressed. The compression
    library and the JSON library are outside the store; here each is a
    reversible stand-in whose round-trip law is proved, which is all the store
    relies on. */
module Codec {
  import opened Common

  // ---------------------------------------------------------------------
  // Encoding type tag

  datatype EncodingType = Plain | Gzip

  function NumVal(e: EncodingType): (n: int)
    ensures n == 1 || n == 2
  {
    match e
    case Plain => 1
    case Gzip => 2
  }

  /** `EncodingType.fromInteger`: the tag of GZIP gives Gzip; every other tag
      is read as plain. */
  function FromInteger(n: int): (e: EncodingType)
    ensures e == Gzip <==> n == NumVal(Gzip)
  {
    if n == 2 then Gzip else Plain
  }

  lemma FromIntegerNumVal(e: EncodingType)
    ensures FromInteger(NumVal(e)) == e
  {
  }

  // ---------------------------------------------------------------------
  // Compression stand-in: a two-byte header in front of the payload

  const Magic0: byte := 0x1f
  const Magic1: byte := 0x8b

  function GzipBytes(data: seq<byte>): (z: seq<byte>)
    ensures |z| == |data| + 2
  {
    [Magic0, Magic1] + data
  }

  /** Inflation fails (an IOException in the source) on a blob without the
      header. */
  function UnGzipBytes(z: seq<byte>): (r: Option<seq<byte>>)
    ensures r.Some? <==> |z| >= 2 && z[0] == Magic0 && z[1] == Magic1
    ensures r.Some? ==> GzipBytes(r.value) == z
  {
    if |z| >= 2 && z[0] == Magic0 && z[1] == Magic1 then Some(z[2..]) else None
  }

  lemma GzipRoundTrip(data: seq<byte>)
    ensures UnGzipBytes(GzipBytes(data)) == Some(data)
  {
    assert GzipBytes(data)[2..] == data;
  }

  // ---------------------------------------------------------------------
  // JSON stand-in: a document is a sequence of scalar fields, written with
  // a length prefix as a sequence of bytes.

  datatype Field = FInt(i: int) | FStr(s: string) | FNull

  /** Natural numbers in base 128, low digit first; a byte >= 128 says that
      more digits follow. */
  function EncodeNat(n: nat): (s: seq<byte>)
    ensures |s| >= 1
    decreases n
  {
    if n < 128 then [n as byte] else [(128 + n % 128) as byte] + EncodeNat(n / 128)
  }

  function DecodeNat(s: seq<byte>): Option<(nat, seq<byte>)>
    decreases |s|
  {
    if |s| == 0 then None
    else if s[0] < 128 then Some((s[0] as nat, s[1..]))
    else
      match DecodeNat(s[1..])
      case None => None
      case Some((m, rest)) => Some(((s[0] as int - 128) + 128 * m, rest))
  }

  lemma {:induction false} NatRoundTrip(n: nat, rest: seq<byte>)
    ensures DecodeNat(EncodeNat(n) + rest) == Some((n, rest))
    decreases n
  {
    if n >= 128 {
      var b := (128 + n % 128) as byte;
      assert EncodeNat(n) + rest == [b] + (EncodeNat(n / 128) + rest);
      assert (EncodeNat(n) + rest)[1..] == EncodeNat(n / 128) + rest;
      NatRoundTrip(n / 128, rest);
    } else {
      assert (EncodeNat(n) + rest)[1..] == rest;
    }
  }

  /** Signed integers through the zig-zag map onto the naturals. */
  function ZigZag(i: int): nat {
    if i >= 0 then 2 * i else -2 * i - 1
  }

  function UnZigZag(n: nat): int {
    if n % 2 == 0 then n / 2 else -(n + 1) / 2
  }

  lemma ZigZagRoundTrip(i: int)
    ensures UnZigZag(ZigZag(i)) == i
  {
  }

  predicate IsCharCode(n: int) {
    0 <= n < 0xD800 || 0xE000 <= n < 0x11_0000
  }

  function EncodeChars(s: string): seq<byte>
    decreases |s|
  {
    if |s| == 0 then [] else EncodeNat(s[0] as int) + EncodeChars(s[1..])
  }

  function DecodeChars(s: seq<byte>, count: nat): Option<(string, seq<byte>)>
    decreases count
  {
    if count == 0 then Some(([], s))
    else
      match DecodeNat(s)
      case None => None
      case Some((c, rest)) =>
        if !IsCharCode(c) then None
        else
          match DecodeChars(rest, count - 1)
          case None => None
          case Some((cs, rest')) => Some(([c as char] + cs, rest'))
  }

  lemma {:induction false} CharsRoundTrip(s: string, rest: seq<byte>)
    ensures DecodeChars(EncodeChars(s) + rest, |s|) == Some((s, rest))
    decreases |s|
  {
    if |s| > 0 {
      assert EncodeChars(s) + rest == EncodeNat(s[0] as int) + (EncodeChars(s[1..]) + rest);
      NatRoundTrip(s[0] as int, EncodeChars(s[1..]) + rest);
      assert DecodeNat(EncodeChars(s) + rest) == Some((s[0] as int, EncodeChars(s[1..]) + rest));
      assert IsCharCode(s[0] as int);
      assert (s[0] as int) as char == s[0];
      CharsRoundTrip(s[1..], rest);
      assert DecodeChars(EncodeChars(s[1..]) + rest, |s| - 1) == Some((s[1..], rest));
      assert [s[0]] + s[1..] == s;
    } else {
      assert EncodeChars(s) + rest == rest;
    }
  }

  function EncodeField(f: Field): seq<byte> {
    match f
    case FInt(i) => [0 as byte] + EncodeNat(ZigZag(i))
    case FStr(s) => [1 as byte] + EncodeNat(|s|) + EncodeChars(s)
    case FNull => [2 as byte]
  }

  function DecodeField(s: seq<byte>): Option<(Field, seq<byte>)> {
    if |s| == 0 then None
    else if s[0] == 0 then
      match DecodeNat(s[1..])
      case None => None
      case Some((n, rest)) => Some((FInt(UnZigZag(n)), rest))
    else if s[0] == 1 then
      match DecodeNat(s[1..])
      case None => None
      case Some((n, rest)) =>
        match DecodeChars(rest, n)
        case None => None
        case Some((str, rest')) => Some((FStr(str), rest'))
    else if s[0] == 2 then Some((FNull, s[1..]))
    else None
  }

  lemma FieldRoundTrip(f: Field, rest: seq<byte>)
    ensures DecodeField(EncodeField(f) + rest) == Some((f, rest))
  {
    match f
    case FInt(i) => IntFieldRoundTrip(i, rest);
    case FStr(str) => StrFieldRoundTrip(str, rest);
    case FNull => assert (EncodeField(f) + rest)[1..] == rest;
  }

  lemma IntFieldRoundTrip(i: int, rest: seq<byte>)
    ensures DecodeField(EncodeField(FInt(i)) + rest) == Some((FInt(i), rest))
  {
    var s := EncodeField(FInt(i)) + rest;
    assert s[0] == 0;
    assert s[1..] == EncodeNat(ZigZag(i)) + rest;
    NatRoundTrip(ZigZag(i), rest);
    ZigZagRoundTrip(i);
  }

  lemma StrFieldRoundTrip(str: string, rest: seq<byte>)
    ensures DecodeField(EncodeField(FStr(str)) + rest) == Some((FStr(str), rest))
  {
    var s := EncodeField(FStr(str)) + rest;
    assert s[0] == 1;
    assert s[1..] == EncodeNat(|str|) + (EncodeChars(str) + rest);
    NatRoundTrip(|str|, EncodeChars(str) + rest);
    CharsRoundTrip(str, rest);
  }

  function EncodeFieldSeq(fs: seq<Field>): seq<byte>
    decreases |fs|
  {
    if |fs| == 0 then [] else EncodeField(fs[0]) + EncodeFieldSeq(fs[1..])
  }

  function DecodeFieldSeq(s: seq<byte>, count: nat): Option<(seq<Field>, seq<byte>)>
    decreases count
  {
    if count == 0 then Some(([], s))
    else
      match DecodeField(s)
      case None => None
      case Some((f, rest)) =>
        match DecodeFieldSeq(rest, count - 1)
        case None => None
        case Some((fs, rest')) => Some(([f] + fs, rest'))
  }

  lemma {:induction false} FieldSeqRoundTrip(fs: seq<Field>, rest: seq<byte>)
    ensures DecodeFieldSeq(EncodeFieldSeq(fs) + rest, |fs|) == Some((fs, rest))
    decreases |fs|
  {
    if |fs| > 0 {
      var tail := EncodeFieldSeq(fs[1..]) + rest;
      EncodeFieldSeqCons(fs, rest);
      FieldRoundTrip(fs[0], tail);
      FieldSeqRoundTrip(fs[1..], rest);
      FieldSeqStep(EncodeField(fs[0]) + tail, |fs|, fs[0], tail, fs[1..], rest);
      assert [fs[0]] + fs[1..] == fs;
    } else {
      assert EncodeFieldSeq(fs) + rest == rest;
    }
  }

  lemma EncodeFieldSeqCons(fs: seq<Field>, rest: seq<byte>)
    requires |fs| > 0
    ensures EncodeFieldSeq(fs) + rest == EncodeField(fs[0]) + (EncodeFieldSeq(fs[1..]) + rest)
  {
  }

  lemma FieldSeqStep(s: seq<byte>, count: nat, f: Field, mid: seq<byte>, fs: seq<Field>, rest: seq<byte>)
    requires count > 0
    requires DecodeField(s) == Some((f, mid))
    requires DecodeFieldSeq(mid, count - 1) == Some((fs, rest))
    ensures DecodeFieldSeq(s, count) == Some(([f] + fs, rest))
  {
  }

  /** The text of a JSON document: its field count, then its fields. */
  function ToJson(fs: seq<Field>): seq<byte> {
    EncodeNat(|fs|) + EncodeFieldSeq(fs)
  }

  /** Parsing fails on a malformed document or on trailing bytes. */
  function ParseJson(s: seq<byte>): Option<seq<Field>> {
    match DecodeNat(s)
    case None => None
    case Some((n, rest)) =>
      match DecodeFieldSeq(rest, n)
      case None => None
      case Some((fs, rest')) => if rest' == [] then Some(fs) else None
  }

  lemma JsonRoundTrip(fs: seq<Field>)
    ensures ParseJson(ToJson(fs)) == Some(fs)
  {
    NatRoundTrip(|fs|, EncodeFieldSeq(fs));
    assert EncodeFieldSeq(fs) + [] == EncodeFieldSeq(fs);
    FieldSeqRoundTrip(fs, []);
  }

  // ---------------------------------------------------------------------
  // Encoding a blob under a tag, and the dispatch of the readers

  /** The bytes stored for a plain payload under `enc`: compressed exactly
      when `enc` is Gzip. */
  function EncodeBlob(enc: EncodingType, plain: seq<byte>): seq<byte> {
    if enc == Gzip then GzipBytes(plain) else plain
  }

  /** The readers inflate exactly when the stored tag is GZIP's. */
  function DecodeBlob(tag: int, stored: seq<byte>): (r: Option<seq<byte>>)
    ensures FromInteger(tag) != Gzip ==> r == Some(stored)
    ensures FromInteger(tag) == Gzip ==> r == UnGzipBytes(stored)
  {
    if FromInteger(tag) == Gzip then UnGzipBytes(stored) else Some(stored)
  }

  lemma BlobRoundTrip(enc: EncodingType, plain: seq<byte>)
    ensures DecodeBlob(NumVal(enc), EncodeBlob(enc, plain)) == Some(plain)
  {
    if enc == Gzip {
      GzipRoundTrip(plain);
    }
  }
}
