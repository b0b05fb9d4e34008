/** Base64 with the standard alphabet and '=' padding, section 4 of RFC 4648
    (Go's base64.StdEncoding), and a decoder that inverts it. */
module Base64 {
  import opened Wrappers
  import opened Utf8

  /** The character for the 6-bit value `i` in the standard alphabet. */
  function Char(i: int): (c: char)
    requires 0 <= i < 64
  {
    if i < 26 then ('A' as int + i) as char
    else if i < 52 then ('a' as int + (i - 26)) as char
    else if i < 62 then ('0' as int + (i - 52)) as char
    else if i == 62 then '+'
    else '/'
  }

  /** The 6-bit value of an alphabet character; `None` for any other character,
      in particular for the pad character '='. */
  function Value(c: char): (r: Option<int>)
    ensures r.Some? ==> 0 <= r.value < 64 && Char(r.value) == c
    ensures c == '=' ==> r.None?
  {
    if 'A' <= c <= 'Z' then Some(c as int - 'A' as int)
    else if 'a' <= c <= 'z' then Some(c as int - 'a' as int + 26)
    else if '0' <= c <= '9' then Some(c as int - '0' as int + 52)
    else if c == '+' then Some(62)
    else if c == '/' then Some(63)
    else None
  }

  lemma ValueChar(i: int)
    requires 0 <= i < 64
    ensures Value(Char(i)) == Some(i)
  {
  }

  /** Three bytes as four characters, six bits each, most significant first. */
  function EncodeGroup(b0: byte, b1: byte, b2: byte): string {
    [Char(b0 / 4), Char((b0 % 4) * 16 + b1 / 16), Char((b1 % 16) * 4 + b2 / 64), Char(b2 % 64)]
  }

  /** base64.StdEncoding.EncodeToString: groups of three bytes, the last group
      completed with zero bits and padded with '=' to four characters. */
  function Encode(b: seq<byte>): (s: string)
    ensures |s| == 4 * ((|b| + 2) / 3)
  {
    if |b| == 0 then ""
    else if |b| == 1 then [Char(b[0] / 4), Char((b[0] % 4) * 16), '=', '=']
    else if |b| == 2 then [Char(b[0] / 4), Char((b[0] % 4) * 16 + b[1] / 16), Char((b[1] % 16) * 4), '=']
    else EncodeGroup(b[0], b[1], b[2]) + Encode(b[3..])
  }

  /** Four characters as one to three bytes; padding is allowed only at the end. */
  function DecodeQuad(q: string): Option<seq<byte>>
    requires |q| == 4
  {
    match (Value(q[0]), Value(q[1]))
    case (Some(c0), Some(c1)) =>
      var x0: int := c0 * 4 + c1 / 16;
      if q[2] == '=' && q[3] == '=' then Some([x0])
      else
        (match Value(q[2])
         case None => None
         case Some(c2) =>
           var x1: int := (c1 % 16) * 16 + c2 / 4;
           if q[3] == '=' then Some([x0, x1])
           else
             (match Value(q[3])
              case None => None
              case Some(c3) =>
                var x2: int := (c2 % 4) * 64 + c3;
                Some([x0, x1, x2])))
    case _ => None
  }

  /** The bytes whose standard base64 form is `s`, if `s` is one. */
  function Decode(s: string): Option<seq<byte>>
    decreases |s|
  {
    if |s| == 0 then Some([])
    else if |s| % 4 != 0 then None
    else if |s| == 4 then DecodeQuad(s)
    else if '=' in s[..4] then None
    else
      match (DecodeQuad(s[..4]), Decode(s[4..]))
      case (Some(first), Some(rest)) => Some(first + rest)
      case _ => None
  }

  lemma DecodeGroup(b0: byte, b1: byte, b2: byte)
    ensures '=' !in EncodeGroup(b0, b1, b2)
    ensures DecodeQuad(EncodeGroup(b0, b1, b2)) == Some([b0, b1, b2])
  {
    var q := EncodeGroup(b0, b1, b2);
    ValueChar(b0 / 4);
    ValueChar((b0 % 4) * 16 + b1 / 16);
    ValueChar((b1 % 16) * 4 + b2 / 64);
    ValueChar(b2 % 64);
  }

  lemma DecodeOne(b0: byte)
    ensures Decode(Encode([b0])) == Some([b0])
  {
    ValueChar(b0 / 4);
    ValueChar((b0 % 4) * 16);
  }

  lemma DecodeTwo(b0: byte, b1: byte)
    ensures Decode(Encode([b0, b1])) == Some([b0, b1])
  {
    var c1 := (b0 % 4) * 16 + b1 / 16;
    var c2 := (b1 % 16) * 4;
    ValueChar(b0 / 4);
    ValueChar(c1);
    ValueChar(c2);
    assert (b0 / 4) * 4 + c1 / 16 == b0;
    assert (c1 % 16) * 16 + c2 / 4 == b1;
    var e := Encode([b0, b1]);
    assert e == [Char(b0 / 4), Char(c1), Char(c2), '='];
  }

  /** A padding-free quadruple in front of a non-empty valid encoding decodes on its own. */
  lemma {:induction false} DecodeCons(g: string, t: string, x: seq<byte>, y: seq<byte>)
    requires |g| == 4 && '=' !in g && DecodeQuad(g) == Some(x)
    requires |t| > 0 && |t| % 4 == 0 && Decode(t) == Some(y)
    ensures Decode(g + t) == Some(x + y)
  {
    var s := g + t;
    assert s[..4] == g && s[4..] == t;
  }

  lemma {:induction false} DecodeThree(b0: byte, b1: byte, b2: byte)
    ensures Decode(EncodeGroup(b0, b1, b2)) == Some([b0, b1, b2])
  {
    DecodeGroup(b0, b1, b2);
  }

  lemma {:induction false} EncodeLong(b: seq<byte>)
    requires |b| >= 3
    ensures Encode(b) == EncodeGroup(b[0], b[1], b[2]) + Encode(b[3..])
  {
  }

  lemma OneGroupEncode(b0: byte, b1: byte, b2: byte)
    ensures Encode([b0, b1, b2]) == EncodeGroup(b0, b1, b2)
  {
    EncodeLong([b0, b1, b2]);
    assert [b0, b1, b2][3..] == [];
  }

  lemma {:induction false} DecodeEncodeShort(b: seq<byte>)
    requires |b| <= 3
    ensures Decode(Encode(b)) == Some(b)
  {
    if |b| == 0 {
      assert Encode(b) == "";
    } else if |b| == 1 {
      assert b == [b[0]];
      DecodeOne(b[0]);
    } else if |b| == 2 {
      assert b == [b[0], b[1]];
      DecodeTwo(b[0], b[1]);
    } else {
      assert b == [b[0], b[1], b[2]];
      EncodeLong(b);
      assert Encode(b[3..]) == "";
      assert Encode(b) == EncodeGroup(b[0], b[1], b[2]);
      DecodeThree(b[0], b[1], b[2]);
    }
  }

  lemma {:induction false} DecodeEncodeLong(b: seq<byte>)
    requires |b| > 3
    requires Decode(Encode(b[3..])) == Some(b[3..])
    ensures Decode(Encode(b)) == Some(b)
  {
    var g := EncodeGroup(b[0], b[1], b[2]);
    var y := b[3..];
    var t := Encode(y);
    EncodeLong(b);
    DecodeGroup(b[0], b[1], b[2]);
    assert (|y| + 2) / 3 >= 1;
    assert |t| > 0 && |t| % 4 == 0;
    DecodeCons(g, t, [b[0], b[1], b[2]], y);
    assert b == [b[0], b[1], b[2]] + b[3..];
  }

  /** Base64 loses nothing: decoding the encoding of `b` yields `b`. */
  lemma {:induction false} DecodeEncode(b: seq<byte>)
    ensures Decode(Encode(b)) == Some(b)
    decreases |b|
  {
    if |b| <= 3 {
      DecodeEncodeShort(b);
    } else {
      DecodeEncode(b[3..]);
      DecodeEncodeLong(b);
    }
  }
}

/** The test vectors of section 10 of RFC 4648, on the bytes of "foobar"
    (f = 102, o = 111, b = 98, a = 97, r = 114). */
module Base64Vectors {
  import opened Base64

  lemma PaddedVectors()
    ensures Encode([]) == ""
    ensures Encode([102]) == "Zg=="
    ensures Encode([102, 111]) == "Zm8="
  {
  }

  lemma OneGroup()
    ensures Encode([102, 111, 111]) == "Zm9v"
  {
    EncodeLong([102, 111, 111]);
    assert [102, 111, 111][3..] == [];
  }

  lemma FooB()
    ensures Encode([102, 111, 111, 98]) == "Zm9vYg=="
  {
    EncodeLong([102, 111, 111, 98]);
    assert [102, 111, 111, 98][3..] == [98];
  }

  lemma FooBa()
    ensures Encode([102, 111, 111, 98, 97]) == "Zm9vYmE="
  {
    EncodeLong([102, 111, 111, 98, 97]);
    assert [102, 111, 111, 98, 97][3..] == [98, 97];
  }

  lemma GroupFoo()
    ensures EncodeGroup(102, 111, 111) == "Zm9v"
  {
  }

  lemma GroupBar()
    ensures EncodeGroup(98, 97, 114) == "YmFy"
  {
  }

  lemma FooBar()
    ensures Encode([102, 111, 111, 98, 97, 114]) == "Zm9vYmFy"
  {
    var b := [102, 111, 111, 98, 97, 114];
    EncodeLong(b);
    assert b[3..] == [98, 97, 114];
    OneGroupEncode(98, 97, 114);
    GroupFoo();
    GroupBar();
  }
}
