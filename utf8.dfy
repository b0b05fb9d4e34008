/** UTF-8, the byte form Go gives a string (`[]byte(s)`, `len(s)`): an encoder
    from Unicode scalar values to bytes and a decoder that inverts it. */
module Utf8 {
  import opened Wrappers

  type byte = x: int | 0 <= x < 256

  /** A continuation byte, 10xxxxxx. */
  predicate IsContinuation(b: byte) {
    0x80 <= b < 0xC0
  }

  /** The bytes of one character: 1 to 4 bytes, the first announcing the count and
      the others continuation bytes. */
  function EncodeChar(c: char): (b: seq<byte>)
    ensures 1 <= |b| <= 4
    ensures forall i :: 1 <= i < |b| ==> IsContinuation(b[i])
    ensures SequenceLength(b[0]) == |b|
  {
    var n := c as int;
    if n < 0x80 then [n]
    else if n < 0x800 then [0xC0 + n / 64, 0x80 + n % 64]
    else if n < 0x10000 then
      var q := n / 64;
      [0xE0 + q / 64, 0x80 + q % 64, 0x80 + n % 64]
    else
      var q := n / 64;
      var q2 := q / 64;
      [0xF0 + q2 / 64, 0x80 + q2 % 64, 0x80 + q % 64, 0x80 + n % 64]
  }

  /** The bytes of a string, character after character. */
  function Encode(s: string): seq<byte> {
    if s == [] then [] else EncodeChar(s[0]) + Encode(s[1..])
  }

  /** How many bytes the sequence introduced by `lead` has, 0 if `lead` cannot start one. */
  function SequenceLength(lead: byte): nat {
    if lead < 0x80 then 1
    else if 0xC0 <= lead < 0xE0 then 2
    else if 0xE0 <= lead < 0xF0 then 3
    else if 0xF0 <= lead < 0xF8 then 4
    else 0
  }

  /** The code point carried by the first `k` bytes of `b`. */
  function CodePoint(b: seq<byte>, k: nat): int
    requires 1 <= k <= 4 && k <= |b|
  {
    var b0: int := b[0];
    if k == 1 then b0
    else
      var b1: int := b[1];
      if k == 2 then (b0 - 0xC0) * 64 + (b1 - 0x80)
      else
        var b2: int := b[2];
        if k == 3 then ((b0 - 0xE0) * 64 + (b1 - 0x80)) * 64 + (b2 - 0x80)
        else
          var b3: int := b[3];
          (((b0 - 0xF0) * 64 + (b1 - 0x80)) * 64 + (b2 - 0x80)) * 64 + (b3 - 0x80)
  }

  /** A Unicode scalar value: a code point that is not a surrogate. */
  predicate IsScalar(n: int) {
    0 <= n < 0xD800 || 0xE000 <= n < 0x11_0000
  }

  /** The first character of `b` and the number of bytes it takes. */
  function DecodeFirst(b: seq<byte>): (r: Option<(char, nat)>)
    requires |b| > 0
    ensures r.Some? ==> 1 <= r.value.1 <= |b|
  {
    var k := SequenceLength(b[0]);
    if k == 0 || |b| < k || exists i :: 1 <= i < k && !IsContinuation(b[i]) then None
    else
      var n := CodePoint(b, k);
      if IsScalar(n) then Some((n as char, k)) else None
  }

  /** The string whose UTF-8 form is `b`, if there is one. */
  function Decode(b: seq<byte>): Option<string>
    decreases |b|
  {
    if |b| == 0 then Some("")
    else
      match DecodeFirst(b)
      case None => None
      case Some(first) =>
        match Decode(b[first.1..])
        case None => None
        case Some(rest) => Some([first.0] + rest)
  }

  /** The encoder's bytes for one character decode back to it. */
  lemma DecodeFirstEncodeChar(c: char, rest: seq<byte>)
    ensures DecodeFirst(EncodeChar(c) + rest) == Some((c, |EncodeChar(c)|))
  {
    var e := EncodeChar(c);
    var b := e + rest;
    var n := c as int;
    assert b[..|e|] == e;
    assert CodePoint(b, |e|) == n by {
      if n >= 0x800 {
        var q := n / 64;
        assert n == q * 64 + n % 64;
        if n >= 0x10000 {
          var q2 := q / 64;
          assert q == q2 * 64 + q % 64;
          assert q2 == (q2 / 64) * 64 + q2 % 64;
        } else {
          assert q == (q / 64) * 64 + q % 64;
        }
      }
    }
  }

  lemma {:induction false} EncodeAppend(a: string, b: string)
    ensures Encode(a + b) == Encode(a) + Encode(b)
  {
    if a == [] {
      assert a + b == b;
    } else {
      assert (a + b)[0] == a[0] && (a + b)[1..] == a[1..] + b;
      EncodeAppend(a[1..], b);
      calc {
        Encode(a + b);
        EncodeChar(a[0]) + Encode(a[1..] + b);
        EncodeChar(a[0]) + (Encode(a[1..]) + Encode(b));
        Encode(a) + Encode(b);
      }
    }
  }

  /** The empty string, and only it, has no bytes. */
  lemma EncodeEmpty(s: string)
    ensures |Encode(s)| == 0 <==> s == ""
  {
  }

  /** UTF-8 loses nothing: decoding the bytes of `s` yields `s`. */
  lemma {:induction false} DecodeEncode(s: string)
    ensures Decode(Encode(s)) == Some(s)
  {
    if s != [] {
      var e := EncodeChar(s[0]);
      DecodeFirstEncodeChar(s[0], Encode(s[1..]));
      assert (e + Encode(s[1..]))[|e|..] == Encode(s[1..]);
      DecodeEncode(s[1..]);
      assert s == [s[0]] + s[1..];
    }
  }
}
