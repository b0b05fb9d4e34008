/** String helpers the connector relies on: Go's strings.Join with a one-character
    separator, its inverse strings.Split, and the decimal rendering of fmt's `%d`
    together with a parser that inverts it. */
module Text {
  import opened Wrappers

  /** `s` occurs inside `t`. */
  ghost predicate Contains(t: string, s: string) {
    exists i :: 0 <= i <= |t| && HasPrefix(t[i..], s)
  }

  /** `p` is a prefix of `t`. */
  predicate HasPrefix(t: string, p: string) {
    |p| <= |t| && t[..|p|] == p
  }

  lemma ContainsMiddle(a: string, s: string, b: string)
    ensures Contains(a + s + b, s)
  {
    var t := a + s + b;
    assert t[|a|..][..|s|] == s;
    assert HasPrefix(t[|a|..], s);
  }

  /** strings.Join(parts, [sep]). */
  function Join(parts: seq<string>, sep: char): string {
    if |parts| == 0 then ""
    else if |parts| == 1 then parts[0]
    else parts[0] + [sep] + Join(parts[1..], sep)
  }

  /** strings.Split(s, [sep]): the pieces between occurrences of `sep`; there is
      always at least one. */
  function Split(s: string, sep: char): (pieces: seq<string>)
    ensures |pieces| > 0
  {
    if |s| == 0 then [""]
    else
      var rest := Split(s[1..], sep);
      if s[0] == sep then [""] + rest
      else [[s[0]] + rest[0]] + rest[1..]
  }

  /** Split of a string given by its first character and the rest. */
  lemma SplitCons(c: char, t: string, sep: char)
    ensures Split([c] + t, sep) ==
      if c == sep then [""] + Split(t, sep) else [[c] + Split(t, sep)[0]] + Split(t, sep)[1..]
  {
    assert ([c] + t)[0] == c && ([c] + t)[1..] == t;
  }

  /** A string without the separator is a single piece. */
  lemma {:induction false} SplitFree(s: string, sep: char)
    requires sep !in s
    ensures Split(s, sep) == [s]
  {
    if |s| > 0 {
      assert forall c :: c in s[1..] ==> c in s;
      SplitFree(s[1..], sep);
      assert [s[0]] + s[1..] == s;
    }
  }

  /** A leading separator adds an empty piece in front. */
  lemma SplitStepSeparator(u: string, t: string, r: seq<string>, sep: char)
    requires Split(u, sep) == Split(t, sep) + r
    ensures Split([sep] + u, sep) == Split([sep] + t, sep) + r
  {
    var l := Split(t, sep);
    SplitCons(sep, u, sep);
    SplitCons(sep, t, sep);
    assert [""] + (l + r) == [""] + l + r;
  }

  /** A leading character other than the separator extends the first piece. */
  lemma SplitStepOther(c: char, u: string, t: string, r: seq<string>, sep: char)
    requires c != sep
    requires Split(u, sep) == Split(t, sep) + r
    ensures Split([c] + u, sep) == Split([c] + t, sep) + r
  {
    var l := Split(t, sep);
    SplitCons(c, u, sep);
    SplitCons(c, t, sep);
    assert (l + r)[0] == l[0] && (l + r)[1..] == l[1..] + r;
    assert [[c] + l[0]] + (l[1..] + r) == [[c] + l[0]] + l[1..] + r;
  }

  /** Splitting at a separator placed between `a` and `b` splits each side on its own. */
  lemma {:induction false} SplitAppend(a: string, b: string, sep: char)
    ensures Split(a + [sep] + b, sep) == Split(a, sep) + Split(b, sep)
    decreases |a|
  {
    if |a| == 0 {
      assert a + [sep] + b == [sep] + b;
      SplitCons(sep, b, sep);
    } else {
      var t := a[1..];
      assert a == [a[0]] + t;
      assert a + [sep] + b == [a[0]] + (t + [sep] + b);
      SplitAppend(t, b, sep);
      if a[0] == sep {
        SplitStepSeparator(t + [sep] + b, t, Split(b, sep), sep);
      } else {
        SplitStepOther(a[0], t + [sep] + b, t, Split(b, sep), sep);
      }
    }
  }

  /** Every piece of a split is free of the separator. */
  lemma {:induction false} SplitPiecesFree(s: string, sep: char)
    ensures forall p :: p in Split(s, sep) ==> sep !in p
  {
    if |s| > 0 {
      SplitPiecesFree(s[1..], sep);
      var rest := Split(s[1..], sep);
      if s[0] != sep {
        assert rest[0] in rest;
        assert forall p :: p in rest[1..] ==> p in rest;
      }
    }
  }

  /** Split inverts Join when no part contains the separator. */
  lemma {:induction false} SplitJoin(parts: seq<string>, sep: char)
    requires |parts| > 0
    requires forall p :: p in parts ==> sep !in p
    ensures Split(Join(parts, sep), sep) == parts
  {
    if |parts| > 1 {
      assert parts[0] in parts;
      assert forall p :: p in parts[1..] ==> p in parts;
      SplitFree(parts[0], sep);
      SplitAppend(parts[0], Join(parts[1..], sep), sep);
      SplitJoin(parts[1..], sep);
      assert [parts[0]] + parts[1..] == parts;
    } else {
      assert parts[0] in parts && parts == [parts[0]];
      SplitFree(parts[0], sep);
    }
  }

  /** Joining two non-empty lists of parts puts one separator between the halves. */
  lemma {:induction false} JoinAppend(a: seq<string>, b: seq<string>, sep: char)
    requires |a| > 0 && |b| > 0
    ensures Join(a + b, sep) == Join(a, sep) + [sep] + Join(b, sep)
  {
    if |a| > 1 {
      assert (a + b)[1..] == a[1..] + b;
      JoinAppend(a[1..], b, sep);
    } else {
      assert (a + b)[1..] == b;
    }
  }

  /** A join of non-empty, separator-free parts is non-empty and starts with the
      first character of its first part. */
  lemma {:induction false} JoinHead(parts: seq<string>, sep: char)
    requires |parts| > 0 && parts[0] != ""
    ensures |Join(parts, sep)| > 0 && Join(parts, sep)[0] == parts[0][0]
  {
  }

  /** The decimal digit for `d`. */
  function Digit(d: nat): (c: char)
    requires d < 10
    ensures '0' <= c <= '9' && c as int - '0' as int == d
  {
    ('0' as int + d) as char
  }

  /** The value of a decimal digit character, if it is one. */
  function DigitValue(c: char): (r: Option<nat>)
    ensures r.Some? <==> '0' <= c <= '9'
    ensures r.Some? ==> r.value < 10 && Digit(r.value) == c
  {
    if '0' <= c <= '9' then Some(c as int - '0' as int) else None
  }

  /** fmt's `%d` of a natural number: no sign, no leading zeros. */
  function NatToString(n: nat): (s: string)
    ensures |s| > 0
    ensures forall i :: 0 <= i < |s| ==> '0' <= s[i] <= '9'
    ensures |s| > 1 ==> s[0] != '0'
  {
    if n < 10 then [Digit(n)] else NatToString(n / 10) + [Digit(n % 10)]
  }

  /** fmt's `%d` of an int: a leading '-' for negative values. */
  function IntToString(n: int): (s: string)
    ensures ':' !in s && ',' !in s && '/' !in s
  {
    if n < 0 then "-" + NatToString(-n) else NatToString(n)
  }

  /** Reads a non-empty run of decimal digits. */
  function ParseNat(s: string): Option<nat>
  {
    if |s| == 0 then None
    else
      match DigitValue(s[|s| - 1])
      case None => None
      case Some(d) =>
        if |s| == 1 then Some(d)
        else
          match ParseNat(s[..|s| - 1])
          case None => None
          case Some(v) => Some(v * 10 + d)
  }

  /** Reads an optionally negative decimal integer. */
  function ParseInt(s: string): Option<int>
  {
    if |s| > 0 && s[0] == '-' then
      match ParseNat(s[1..])
      case None => None
      case Some(v) => Some(-(v as int))
    else
      match ParseNat(s)
      case None => None
      case Some(v) => Some(v)
  }

  lemma {:induction false} ParseNatToString(n: nat)
    ensures ParseNat(NatToString(n)) == Some(n)
  {
    if n >= 10 {
      var s := NatToString(n);
      assert s[..|s| - 1] == NatToString(n / 10);
      ParseNatToString(n / 10);
    }
  }

  /** `%d` loses nothing: the decimal text of `n` reads back as `n`. */
  lemma ParseIntToString(n: int)
    ensures ParseInt(IntToString(n)) == Some(n)
  {
    if n < 0 {
      var digits := NatToString(-n);
      var s := "-" + digits;
      assert s[0] == '-' && s[1..] == digits;
      ParseNatToString(-n);
    } else {
      assert NatToString(n)[0] != '-';
      ParseNatToString(n);
    }
  }
}
