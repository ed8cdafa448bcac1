/**
 * Python text and bytes, and the strict UTF-8 codec that `str.encode('utf-8')`
 * and `bytes.decode('utf-8')` apply (the encoding scheme of section 3 of
 * RFC 3629).
 */
module Utf8 {
  import opened Wrappers

  /** A Python `str` element: any code point, lone surrogates included. */
  type CodePoint = c: int | 0 <= c < 0x110000

  /** A Python `str`. */
  type Text = seq<CodePoint>

  type Byte = b: int | 0 <= b < 0x100

  /** A Python `bytes` value. */
  type Bytes = seq<Byte>

  /** The Text of a Dafny string literal (Dafny characters are scalar values). */
  function Lit(s: string): (t: Text)
    ensures |t| == |s|
    ensures forall i :: 0 <= i < |s| ==> t[i] == s[i] as int
  {
    seq(|s|, i requires 0 <= i < |s| => s[i] as int)
  }

  predicate IsSurrogate(c: int) {
    0xD800 <= c <= 0xDFFF
  }

  /** Code points UTF-8 can carry: everything except the surrogates. */
  predicate IsScalar(c: CodePoint) {
    !IsSurrogate(c)
  }

  predicate AllScalars(t: Text) {
    forall i :: 0 <= i < |t| ==> IsScalar(t[i])
  }

  predicate IsContinuation(b: Byte) {
    0x80 <= b <= 0xBF
  }

  /**
   * The one-to-four-byte form of a single scalar value: the value's bits,
   * six at a time from the low end, go into continuation bytes 10xxxxxx,
   * and the rest into a lead byte 0xxxxxxx, 110xxxxx, 1110xxxx or 11110xxx.
   */
  function EncodeScalar(c: CodePoint): (b: Bytes)
    requires IsScalar(c)
    ensures 1 <= |b| <= 4
    ensures |b| == 1 <==> c < 0x80
    ensures |b| == 2 <==> 0x80 <= c < 0x800
    ensures |b| == 3 <==> 0x800 <= c < 0x10000
    ensures forall i :: 1 <= i < |b| ==> IsContinuation(b[i])
  {
    if c < 0x80 then [c]
    else if c < 0x800 then [0xC0 + c / 64, 0x80 + c % 64]
    else if c < 0x10000 then [0xE0 + c / 64 / 64, 0x80 + (c / 64) % 64, 0x80 + c % 64]
    else [0xF0 + c / 64 / 64 / 64, 0x80 + (c / 64 / 64) % 64, 0x80 + (c / 64) % 64, 0x80 + c % 64]
  }

  /**
   * `str.encode('utf-8')` in the strict error mode: the text's scalar values
   * encoded one after the other, or, when the text holds a surrogate, the
   * index of the first one (where Python's UnicodeEncodeError starts).
   */
  function Encode(t: Text): (r: Result<Bytes, nat>)
    ensures r.Success? <==> AllScalars(t)
    ensures r.Failure? ==>
      r.error < |t| && IsSurrogate(t[r.error]) &&
      forall i :: 0 <= i < r.error ==> IsScalar(t[i])
    ensures r.Success? ==> |t| <= |r.value| <= 4 * |t|
  {
    if |t| == 0 then Success([])
    else if IsSurrogate(t[0]) then Failure(0)
    else
      match Encode(t[1..])
      case Success(rest) => Success(EncodeScalar(t[0]) + rest)
      case Failure(p) => Failure(p + 1)
  }

  /**
   * The scalar value at the front of `b` and the number of bytes it takes,
   * or None when `b` does not start with a well-formed UTF-8 sequence:
   * a stray continuation byte, a truncated sequence, an overlong form, an
   * encoded surrogate or a value above U+10FFFF.
   */
  function DecodeScalar(b: Bytes): (r: Option<(CodePoint, nat)>)
    requires |b| > 0
    ensures r.Some? ==> 1 <= r.value.1 <= 4 && r.value.1 <= |b| && IsScalar(r.value.0)
  {
    var b0: int := b[0];
    if b0 < 0x80 then Some((b0, 1))
    else if 0xC2 <= b0 <= 0xDF then
      if |b| >= 2 && IsContinuation(b[1]) then
        Some((Payload2(b0 - 0xC0, b[1]), 2))
      else None
    else if 0xE0 <= b0 <= 0xEF then
      if |b| >= 3 && IsContinuation(b[1]) && IsContinuation(b[2]) then
        var c := Payload3(b0 - 0xE0, b[1], b[2]);
        if c < 0x800 || IsSurrogate(c) then None else Some((c, 3))
      else None
    else if 0xF0 <= b0 <= 0xF4 then
      if |b| >= 4 && IsContinuation(b[1]) && IsContinuation(b[2]) && IsContinuation(b[3]) then
        var c := Payload4(b0 - 0xF0, b[1], b[2], b[3]);
        if c < 0x10000 || c >= 0x110000 then None else Some((c, 4))
      else None
    else None
  }

  /** DecodeScalar reads only the bytes of the sequence it accepts. */
  lemma DecodeScalarPrefix(b: Bytes, k: nat)
    requires |b| > 0 && DecodeScalar(b).Some? && DecodeScalar(b).value.1 <= k <= |b|
    ensures DecodeScalar(b[..k]) == DecodeScalar(b)
  {
    var p := b[..k];
    assert p[0] == b[0];
    assert forall i :: 0 <= i < DecodeScalar(b).value.1 ==> p[i] == b[i];
  }

  /**
   * `bytes.decode('utf-8')` in the strict error mode: the decoded text, or
   * the offset of the first ill-formed sequence (where Python's
   * UnicodeDecodeError starts): everything before it decodes, and no
   * well-formed sequence starts there.
   */
  function Decode(b: Bytes): (r: Result<Text, nat>)
    ensures r.Success? ==> AllScalars(r.value) && |r.value| <= |b|
    ensures r.Failure? ==>
      r.error < |b| && Decode(b[..r.error]).Success? && DecodeScalar(b[r.error..]).None?
    decreases |b|
  {
    if |b| == 0 then Success([])
    else
      match DecodeScalar(b)
      case None => assert b[..0] == [] && b[0..] == b; Failure(0)
      case Some((c, n)) =>
        match Decode(b[n..])
        case Success(rest) => Success([c] + rest)
        case Failure(p) =>
          DecodeScalarPrefix(b, p + n);
          assert b[..p + n][n..] == b[n..][..p];
          assert b[p + n..] == b[n..][p..];
          Failure(p + n)
  }

  /** The value of a lead-byte payload followed by continuation bytes, six bits each. */
  function Payload2(lead: int, b1: Byte): (v: int) {
    lead * 64 + (b1 - 0x80)
  }

  function Payload3(lead: int, b1: Byte, b2: Byte): (v: int) {
    Payload2(lead, b1) * 64 + (b2 - 0x80)
  }

  function Payload4(lead: int, b1: Byte, b2: Byte, b3: Byte): (v: int) {
    Payload3(lead, b1, b2) * 64 + (b3 - 0x80)
  }

  lemma SixBits(q: int, r: int)
    requires 0 <= r < 64
    ensures (q * 64 + r) / 64 == q && (q * 64 + r) % 64 == r
  {
  }

  lemma Scalar2(c: CodePoint, rest: Bytes)
    requires 0x80 <= c < 0x800
    ensures DecodeScalar(EncodeScalar(c) + rest) == Some((c, 2))
  {
    var b := EncodeScalar(c) + rest;
    assert b[0] == 0xC0 + c / 64 && b[1] == 0x80 + c % 64;
  }

  lemma Scalar3(c: CodePoint, rest: Bytes)
    requires 0x800 <= c < 0x10000 && IsScalar(c)
    ensures DecodeScalar(EncodeScalar(c) + rest) == Some((c, 3))
  {
    var b := EncodeScalar(c) + rest;
    assert b[0] == 0xE0 + c / 64 / 64 && b[1] == 0x80 + (c / 64) % 64 && b[2] == 0x80 + c % 64;
    assert Payload3(b[0] - 0xE0, b[1], b[2]) == c;
  }

  lemma Scalar4(c: CodePoint, rest: Bytes)
    requires 0x10000 <= c
    ensures DecodeScalar(EncodeScalar(c) + rest) == Some((c, 4))
  {
    var b := EncodeScalar(c) + rest;
    assert b[0] == 0xF0 + c / 64 / 64 / 64 && b[1] == 0x80 + (c / 64 / 64) % 64;
    assert b[2] == 0x80 + (c / 64) % 64 && b[3] == 0x80 + c % 64;
    assert Payload4(b[0] - 0xF0, b[1], b[2], b[3]) == c;
  }

  /** Decoding the encoding of one scalar value gives it back, whatever follows. */
  lemma DecodeEncodeScalar(c: CodePoint, rest: Bytes)
    requires IsScalar(c)
    ensures DecodeScalar(EncodeScalar(c) + rest) == Some((c, |EncodeScalar(c)|))
  {
    if c < 0x80 {
    } else if c < 0x800 {
      Scalar2(c, rest);
    } else if c < 0x10000 {
      Scalar3(c, rest);
    } else {
      Scalar4(c, rest);
    }
  }

  /** A well-formed sequence at the front of `b` is the encoding of the value it decodes to. */
  lemma EncodeDecodeScalar(b: Bytes)
    requires |b| > 0 && DecodeScalar(b).Some?
    ensures EncodeScalar(DecodeScalar(b).value.0) == b[..DecodeScalar(b).value.1]
  {
    var (c, n) := DecodeScalar(b).value;
    if n == 2 {
      SixBits(b[0] - 0xC0, b[1] - 0x80);
    } else if n == 3 {
      SixBits(b[0] - 0xE0, b[1] - 0x80);
      SixBits(Payload2(b[0] - 0xE0, b[1]), b[2] - 0x80);
    } else if n == 4 {
      SixBits(b[0] - 0xF0, b[1] - 0x80);
      SixBits(Payload2(b[0] - 0xF0, b[1]), b[2] - 0x80);
      SixBits(Payload3(b[0] - 0xF0, b[1], b[2]), b[3] - 0x80);
    }
  }

  /** Encoding then decoding gives the text back: a str sent through the codec survives. */
  lemma {:induction false} DecodeEncode(t: Text)
    requires AllScalars(t)
    ensures Encode(t).Success? && Decode(Encode(t).value) == Success(t)
  {
    if |t| > 0 {
      DecodeEncode(t[1..]);
      var e := EncodeScalar(t[0]);
      var rest := Encode(t[1..]).value;
      DecodeEncodeScalar(t[0], rest);
      assert (e + rest)[|e|..] == rest;
      assert [t[0]] + t[1..] == t;
    }
  }

  /** Encoding a text with one more scalar value in front puts its bytes in front. */
  lemma EncodeCons(c: CodePoint, t: Text)
    requires IsScalar(c) && AllScalars(t)
    ensures Encode([c] + t) == Success(EncodeScalar(c) + Encode(t).value)
  {
    assert ([c] + t)[1..] == t;
  }

  /** One step of decoding: the first value decoded is encoded by the bytes it was read from. */
  lemma DecodeStep(b: Bytes) returns (n: nat)
    requires |b| > 0 && Decode(b).Success?
    ensures 1 <= n <= |b| && Decode(b[n..]).Success?
    ensures |Decode(b).value| > 0 && Decode(b).value[1..] == Decode(b[n..]).value
    ensures IsScalar(Decode(b).value[0]) && EncodeScalar(Decode(b).value[0]) == b[..n]
  {
    var c;
    c, n := DecodeScalar(b).value.0, DecodeScalar(b).value.1;
    EncodeDecodeScalar(b);
  }

  /** Decoding then encoding gives the bytes back: decoding never normalises. */
  lemma {:induction false} EncodeDecode(b: Bytes)
    requires Decode(b).Success?
    ensures Encode(Decode(b).value) == Success(b)
    decreases |b|
  {
    if |b| > 0 {
      var n := DecodeStep(b);
      var t := Decode(b).value;
      EncodeDecode(b[n..]);
      assert AllScalars(t[1..]);
      EncodeCons(t[0], t[1..]);
      assert [t[0]] + t[1..] == t;
      assert b[..n] + b[n..] == b;
    }
  }

}
