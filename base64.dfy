/** PHP's base64_encode and (non-strict) base64_decode over byte strings,
    with the alphabet of section 4 of RFC 4648. */
module Base64 {

  import opened Php

  /** A PHP string holds bytes: every character is below 256. */
  predicate IsByteString(s: string)
  {
    forall i | 0 <= i < |s| :: s[i] as int < 256
  }

  /** The character of the alphabet with value d. */
  function Char(d: nat): (c: char)
    requires d < 64
    ensures Sextet(c) == Some(d)
  {
    if d < 26 then ('A' as int + d) as char
    else if d < 52 then ('a' as int + (d - 26)) as char
    else if d < 62 then ('0' as int + (d - 52)) as char
    else if d == 62 then '+'
    else '/'
  }

  /** The reverse table: the value of an alphabet character. */
  function Sextet(c: char): Option<nat>
  {
    if 'A' <= c <= 'Z' then Some(c as int - 'A' as int)
    else if 'a' <= c <= 'z' then Some(c as int - 'a' as int + 26)
    else if '0' <= c <= '9' then Some(c as int - '0' as int + 52)
    else if c == '+' then Some(62)
    else if c == '/' then Some(63)
    else None
  }

  function B(s: string, i: nat): (b: nat)
    requires i < |s| && IsByteString(s)
    ensures b < 256
  {
    s[i] as int
  }

  /** The six-bit groups of one to three bytes, most significant first;
      missing low bits are zero. */
  function Group(s: string): (g: seq<nat>)
    requires IsByteString(s) && 1 <= |s| <= 3
    ensures |g| == |s| + 1
    ensures forall i | 0 <= i < |g| :: g[i] < 64
  {
    var b0 := B(s, 0);
    if |s| == 1 then [b0 / 4, b0 % 4 * 16]
    else
      var b1 := B(s, 1);
      if |s| == 2 then [b0 / 4, b0 % 4 * 16 + b1 / 16, b1 % 16 * 4]
      else
        var b2 := B(s, 2);
        [b0 / 4, b0 % 4 * 16 + b1 / 16, b1 % 16 * 4 + b2 / 64, b2 % 64]
  }

  function Chars(g: seq<nat>): (t: string)
    requires forall i | 0 <= i < |g| :: g[i] < 64
    ensures |t| == |g|
    ensures forall i | 0 <= i < |g| :: Sextet(t[i]) == Some(g[i])
  {
    if g == [] then [] else [Char(g[0])] + Chars(g[1..])
  }

  lemma ByteStringSuffix(s: string, k: nat)
    requires IsByteString(s) && k <= |s|
    ensures IsByteString(s[..k]) && IsByteString(s[k..])
  {
    assert forall i | 0 <= i < |s[k..]| :: s[k..][i] == s[k + i];
  }

  /** base64_encode(): every three bytes become four characters; a final
      group of one or two bytes is padded with '='. */
  function Encode(s: string): (r: string)
    requires IsByteString(s)
    ensures |r| % 4 == 0 && (|s| > 0 <==> |r| > 0)
  {
    if |s| == 0 then ""
    else if |s| == 1 then Chars(Group(s)) + "=="
    else if |s| == 2 then Chars(Group(s)) + "="
    else
      ByteStringSuffix(s, 3);
      Chars(Group(s[..3])) + Encode(s[3..])
  }

  /** The values of the alphabet characters of t, in order; base64_decode
      in non-strict mode skips every other character, '=' included. */
  function Sextets(t: string): (q: seq<nat>)
    ensures forall i | 0 <= i < |q| :: q[i] < 64
  {
    if t == [] then []
    else
      match Sextet(t[0])
      case Some(d) => [d] + Sextets(t[1..])
      case None => Sextets(t[1..])
  }

  /** Bytes from sextets: each group of four gives three bytes, a final
      group of two or three gives one or two, a single leftover sextet
      gives nothing. */
  function FromSextets(q: seq<nat>): (r: string)
    requires forall i | 0 <= i < |q| :: q[i] < 64
    ensures IsByteString(r)
  {
    if |q| < 2 then ""
    else if |q| == 2 then [(q[0] * 4 + q[1] / 16) as char]
    else if |q| == 3 then [(q[0] * 4 + q[1] / 16) as char, (q[1] % 16 * 16 + q[2] / 4) as char]
    else
      [(q[0] * 4 + q[1] / 16) as char, (q[1] % 16 * 16 + q[2] / 4) as char, (q[2] % 4 * 64 + q[3]) as char]
      + FromSextets(q[4..])
  }

  /** base64_decode($t) without the strict flag; it never fails. */
  function Decode(t: string): (r: string)
    ensures IsByteString(r)
  {
    FromSextets(Sextets(t))
  }

  lemma {:induction false} SextetsAppend(a: string, b: string)
    ensures Sextets(a + b) == Sextets(a) + Sextets(b)
  {
    if a == [] {
      assert a + b == b;
    } else {
      assert (a + b)[0] == a[0];
      assert (a + b)[1..] == a[1..] + b;
      SextetsAppend(a[1..], b);
    }
  }

  lemma {:induction false} SextetsOfChars(g: seq<nat>)
    requires forall i | 0 <= i < |g| :: g[i] < 64
    ensures Sextets(Chars(g)) == g
  {
    if g != [] {
      assert Chars(g)[1..] == Chars(g[1..]);
      SextetsOfChars(g[1..]);
    }
  }

  /** The sextets of an encoding are the bit groups of the bytes, padding
      dropped. */
  lemma {:induction false} EncodeSextets(s: string)
    requires IsByteString(s)
    ensures Sextets(Encode(s)) == BitGroups(s)
  {
    if |s| == 0 {
    } else if |s| <= 2 {
      var pad := if |s| == 1 then "==" else "=";
      SextetsAppend(Chars(Group(s)), pad);
      SextetsOfChars(Group(s));
    } else {
      ByteStringSuffix(s, 3);
      SextetsAppend(Chars(Group(s[..3])), Encode(s[3..]));
      SextetsOfChars(Group(s[..3]));
      EncodeSextets(s[3..]);
    }
  }

  /** The six-bit groups of the bytes of s, most significant first. */
  function BitGroups(s: string): (q: seq<nat>)
    requires IsByteString(s)
    ensures forall i | 0 <= i < |q| :: q[i] < 64
  {
    if |s| == 0 then []
    else if |s| <= 2 then Group(s)
    else
      ByteStringSuffix(s, 3);
      Group(s[..3]) + BitGroups(s[3..])
  }

  /** The bytes of one group come back from its sextets. */
  lemma GroupBytes(s: string)
    requires IsByteString(s) && 1 <= |s| <= 3
    ensures var g := Group(s);
      (g[0] * 4 + g[1] / 16) as char == s[0]
      && (|s| >= 2 ==> (g[1] % 16 * 16 + g[2] / 4) as char == s[1])
      && (|s| == 3 ==> (g[2] % 4 * 64 + g[3]) as char == s[2])
  {
    var g := Group(s);
    var b0 := B(s, 0);
    var b1 := if |s| >= 2 then B(s, 1) else 0;
    var b2 := if |s| == 3 then B(s, 2) else 0;
    assert g[1] == b0 % 4 * 16 + b1 / 16;
    assert g[1] / 16 == b0 % 4;
    assert g[0] * 4 + g[1] / 16 == b0;
    if |s| >= 2 {
      assert g[2] == b1 % 16 * 4 + b2 / 64;
      assert g[1] % 16 == b1 / 16;
      assert g[2] / 4 == b1 % 16;
      assert g[1] % 16 * 16 + g[2] / 4 == b1;
    }
    if |s| == 3 {
      assert g[2] % 4 == b2 / 64;
    }
  }

  lemma {:induction false} FromBitGroups(s: string)
    requires IsByteString(s)
    ensures FromSextets(BitGroups(s)) == s
  {
    if 1 <= |s| <= 2 {
      GroupBytes(s);
    } else if |s| >= 3 {
      ByteStringSuffix(s, 3);
      var g := Group(s[..3]);
      var rest := BitGroups(s[3..]);
      GroupBytes(s[..3]);
      assert BitGroups(s) == g + rest;
      assert (g + rest)[4..] == rest;
      assert (g + rest)[..4] == g;
      FromBitGroups(s[3..]);
      assert s == s[..3] + s[3..];
    }
  }

  /** base64_decode(base64_encode(s)) == s. */
  lemma EncodeDecode(s: string)
    requires IsByteString(s)
    ensures Decode(Encode(s)) == s
  {
    EncodeSextets(s);
    FromBitGroups(s);
  }
}
