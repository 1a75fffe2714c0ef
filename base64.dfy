/**
 * Base 64 as RFC 4648 section 4 defines it and .NET implements it: `Convert.ToBase64String`
 * (padded, alphabet A-Z a-z 0-9 + /) and `Convert.FromBase64String`; plus the unpadded
 * URL-safe shaping of section 5 that the PKCE code writes by hand.
 */
module Base64 {
  import opened Wrappers
  import opened Text

  /** The character for a 6-bit value. */
  function Sextet(v: int): (c: char)
    requires 0 <= v < 64
  {
    if v < 26 then ('A' as int + v) as char
    else if v < 52 then ('a' as int + (v - 26)) as char
    else if v < 62 then ('0' as int + (v - 52)) as char
    else if v == 62 then '+'
    else '/'
  }

  /** The 6-bit value of a character of the alphabet; `None` for any other character, '=' included. */
  function SextetValue(c: char): (v: Option<int>)
    ensures v.Some? ==> 0 <= v.value < 64
  {
    if 'A' <= c <= 'Z' then Some(c as int - 'A' as int)
    else if 'a' <= c <= 'z' then Some(c as int - 'a' as int + 26)
    else if '0' <= c <= '9' then Some(c as int - '0' as int + 52)
    else if c == '+' then Some(62)
    else if c == '/' then Some(63)
    else None
  }

  lemma SextetInverse(v: int)
    requires 0 <= v < 64
    ensures SextetValue(Sextet(v)) == Some(v)
  {
  }

  /** A character of the standard alphabet: a letter, a digit, '+' or '/'. */
  predicate InAlphabet(c: char) {
    SextetValue(c).Some?
  }

  /** Three bytes as four characters. */
  function Group3(b0: Byte, b1: Byte, b2: Byte): (s: string)
    ensures |s| == 4 && forall i :: 0 <= i < 4 ==> InAlphabet(s[i])
  {
    SextetInverse(b0 / 4); SextetInverse((b0 % 4) * 16 + b1 / 16);
    SextetInverse((b1 % 16) * 4 + b2 / 64); SextetInverse(b2 % 64);
    [Sextet(b0 / 4), Sextet((b0 % 4) * 16 + b1 / 16), Sextet((b1 % 16) * 4 + b2 / 64), Sextet(b2 % 64)]
  }

  /** A trailing two bytes as three characters, the low bits zero. */
  function Group2(b0: Byte, b1: Byte): (s: string)
    ensures |s| == 3 && forall i :: 0 <= i < 3 ==> InAlphabet(s[i])
  {
    SextetInverse(b0 / 4); SextetInverse((b0 % 4) * 16 + b1 / 16); SextetInverse((b1 % 16) * 4);
    [Sextet(b0 / 4), Sextet((b0 % 4) * 16 + b1 / 16), Sextet((b1 % 16) * 4)]
  }

  /** A trailing byte as two characters, the low bits zero. */
  function Group1(b0: Byte): (s: string)
    ensures |s| == 2 && forall i :: 0 <= i < 2 ==> InAlphabet(s[i])
  {
    SextetInverse(b0 / 4); SextetInverse((b0 % 4) * 16);
    [Sextet(b0 / 4), Sextet((b0 % 4) * 16)]
  }

  /** The characters of the encoding proper, each group of three bytes giving four; a trailing
      group of one or two bytes gives two or three characters and no padding. */
  function Body(b: seq<Byte>): (s: string)
    ensures |s| == 4 * (|b| / 3) + (if |b| % 3 == 0 then 0 else |b| % 3 + 1)
    ensures forall i :: 0 <= i < |s| ==> InAlphabet(s[i])
  {
    if |b| == 0 then ""
    else if |b| == 1 then Group1(b[0])
    else if |b| == 2 then Group2(b[0], b[1])
    else Group3(b[0], b[1], b[2]) + Body(b[3..])
  }

  /** The '=' characters that complete the last group of four. */
  function Padding(n: nat): (p: string)
    ensures |p| == (if n % 3 == 1 then 2 else if n % 3 == 2 then 1 else 0)
    ensures forall i :: 0 <= i < |p| ==> p[i] == '='
  {
    if n % 3 == 1 then "==" else if n % 3 == 2 then "=" else ""
  }

  /** `Convert.ToBase64String`. */
  function ToBase64String(b: seq<Byte>): (s: string)
    ensures |s| % 4 == 0 && |s| == 4 * ((|b| + 2) / 3)
  {
    PaddedLength(|b|);
    Body(b) + Padding(|b|)
  }

  /** The body and its padding fill whole groups of four. */
  lemma PaddedLength(n: nat)
    ensures 4 * (n / 3) + (if n % 3 == 0 then 0 else n % 3 + 1) + (if n % 3 == 1 then 2 else if n % 3 == 2 then 1 else 0)
            == 4 * ((n + 2) / 3)
  {
    var q, r := n / 3, n % 3;
    assert n + 2 == 3 * (q + (if r == 0 then 0 else 1)) + (if r == 0 then 2 else r - 1);
  }

  /** `Convert.FromBase64String`: `None` where .NET throws a FormatException. */
  function FromBase64String(s: string): (r: Option<seq<Byte>>)
    ensures r.Some? ==> |s| % 4 == 0
  {
    if |s| % 4 != 0 then None else DecodeGroups(s)
  }

  /** Decodes groups of four characters. */
  function DecodeGroups(s: string): (r: Option<seq<Byte>>)
    requires |s| % 4 == 0
    decreases |s|
  {
    if s == [] then Some([])
    else
      match DecodeQuad(s[..4], |s| == 4)
      case None => None
      case Some(g) =>
        match DecodeGroups(s[4..])
        case None => None
        case Some(rest) => Some(g + rest)
  }

  /** One group of four characters; '=' may end the last group only, as "x=" or "==". */
  function DecodeQuad(q: string, isLast: bool): Option<seq<Byte>>
    requires |q| == 4
  {
    var v0, v1, v2, v3 := SextetValue(q[0]), SextetValue(q[1]), SextetValue(q[2]), SextetValue(q[3]);
    if v0.None? || v1.None? then None
    else if q[2] == '=' then
      if q[3] == '=' && isLast then Some([v0.value * 4 + v1.value / 16]) else None
    else if v2.None? then None
    else if q[3] == '=' then
      if isLast then Some([v0.value * 4 + v1.value / 16, (v1.value % 16) * 16 + v2.value / 4]) else None
    else if v3.None? then None
    else Some([v0.value * 4 + v1.value / 16, (v1.value % 16) * 16 + v2.value / 4, (v2.value % 4) * 64 + v3.value])
  }

  /** The sextets of a full group recombine into its three bytes. */
  lemma Recombine3(b0: Byte, b1: Byte, b2: Byte)
    ensures (b0 / 4) * 4 + ((b0 % 4) * 16 + b1 / 16) / 16 == b0
    ensures (((b0 % 4) * 16 + b1 / 16) % 16) * 16 + ((b1 % 16) * 4 + b2 / 64) / 4 == b1
    ensures (((b1 % 16) * 4 + b2 / 64) % 4) * 64 + b2 % 64 == b2
  {
    var q1, q2 := b1 / 16, b2 / 64;
    assert 0 <= q1 < 16 && 0 <= q2 < 4;
    assert ((b0 % 4) * 16 + q1) / 16 == b0 % 4 && ((b0 % 4) * 16 + q1) % 16 == q1;
    assert ((b1 % 16) * 4 + q2) / 4 == b1 % 16 && ((b1 % 16) * 4 + q2) % 4 == q2;
  }

  lemma DecodeGroup1(b0: Byte)
    ensures DecodeQuad(Group1(b0) + "==", true) == Some([b0])
  {
    SextetInverse(b0 / 4); SextetInverse((b0 % 4) * 16);
    assert (b0 / 4) * 4 + ((b0 % 4) * 16) / 16 == b0;
  }

  lemma DecodeGroup2(b0: Byte, b1: Byte)
    ensures DecodeQuad(Group2(b0, b1) + "=", true) == Some([b0, b1])
  {
    var x0, x1, x2 := b0 / 4, (b0 % 4) * 16 + b1 / 16, (b1 % 16) * 4;
    SextetInverse(x0); SextetInverse(x1); SextetInverse(x2);
    Recombine3(b0, b1, 0);
  }

  lemma DecodeGroup3(b0: Byte, b1: Byte, b2: Byte, isLast: bool)
    ensures DecodeQuad(Group3(b0, b1, b2), isLast) == Some([b0, b1, b2])
  {
    var x0, x1, x2, x3 := b0 / 4, (b0 % 4) * 16 + b1 / 16, (b1 % 16) * 4 + b2 / 64, b2 % 64;
    SextetInverse(x0); SextetInverse(x1); SextetInverse(x2); SextetInverse(x3);
    Recombine3(b0, b1, b2);
  }

  /** Encoding a leading group of three bytes puts its four characters in front. */
  lemma EncodeStep(b: seq<Byte>)
    requires |b| >= 3
    ensures ToBase64String(b) == Group3(b[0], b[1], b[2]) + ToBase64String(b[3..])
  {
    assert Padding(|b|) == Padding(|b[3..]|);
  }

  /** A lone group of four is the last one. */
  lemma DecodeLastGroup(q: string)
    requires |q| == 4
    ensures DecodeGroups(q) == DecodeQuad(q, true)
  {
    assert q[..4] == q && q[4..] == [];
    match DecodeQuad(q, true)
    case None =>
    case Some(g) => assert g + [] == g;
  }

  /** Decoding undoes encoding, for every byte sequence. */
  lemma {:induction false} DecodeEncode(b: seq<Byte>)
    ensures FromBase64String(ToBase64String(b)) == Some(b)
  {
    if |b| == 1 || |b| == 2 {
      DecodeEncodeShort(b);
    } else if |b| >= 3 {
      DecodeEncode(b[3..]);
      DecodeEncodeStep(b);
    }
  }

  /** The round trip extends from the bytes after the first three to the whole sequence. */
  lemma DecodeEncodeStep(b: seq<Byte>)
    requires |b| >= 3
    requires FromBase64String(ToBase64String(b[3..])) == Some(b[3..])
    ensures FromBase64String(ToBase64String(b)) == Some(b)
  {
    var q, tail := Group3(b[0], b[1], b[2]), ToBase64String(b[3..]);
    EncodeStep(b);
    DecodeGroup3(b[0], b[1], b[2], tail == []);
    DecodeConcat(q, tail, [b[0], b[1], b[2]], b[3..]);
    assert [b[0], b[1], b[2]] + b[3..] == b;
  }

  /** Decoding a group followed by more groups decodes each in turn. */
  lemma DecodeConcat(q: string, t: string, g: seq<Byte>, rest: seq<Byte>)
    requires |q| == 4 && |t| % 4 == 0
    requires DecodeQuad(q, t == []) == Some(g) && DecodeGroups(t) == Some(rest)
    ensures DecodeGroups(q + t) == Some(g + rest)
  {
    assert (q + t)[..4] == q && (q + t)[4..] == t;
  }

  /** The round trip for one or two bytes: a single padded group. */
  lemma DecodeEncodeShort(b: seq<Byte>)
    requires |b| == 1 || |b| == 2
    ensures FromBase64String(ToBase64String(b)) == Some(b)
  {
    var s := ToBase64String(b);
    if |b| == 1 {
      assert s == Group1(b[0]) + "==";
      DecodeLastGroup(s);
      DecodeGroup1(b[0]);
      assert b == [b[0]];
    } else {
      assert s == Group2(b[0], b[1]) + "=";
      DecodeLastGroup(s);
      DecodeGroup2(b[0], b[1]);
      assert b == [b[0], b[1]];
    }
  }

  /** The unpadded URL-safe form written by hand in the PKCE code: trim '=', then '+' to '-' and '/' to '_'. */
  function ToBase64UrlUnpadded(b: seq<Byte>): string {
    Replace(Replace(TrimEnd(ToBase64String(b), '='), '+', '-'), '/', '_')
  }

  /** Undoes the character swap of the URL-safe form on text of the standard alphabet. */
  lemma SwapBack(body: string)
    requires forall i :: 0 <= i < |body| ==> InAlphabet(body[i])
    ensures Replace(Replace(Replace(Replace(body, '+', '-'), '/', '_'), '-', '+'), '_', '/') == body
  {
    var r := Replace(Replace(Replace(Replace(body, '+', '-'), '/', '_'), '-', '+'), '_', '/');
    forall i | 0 <= i < |body|
      ensures r[i] == body[i]
    {
      assert InAlphabet(body[i]);
    }
  }

  /** The body's length leaves 0, 2 or 3 over four as the byte count leaves 0, 1 or 2 over three. */
  lemma {:induction false} BodyLength(b: seq<Byte>)
    ensures |Body(b)| % 4 == (if |b| % 3 == 0 then 0 else |b| % 3 + 1)
  {
    if |b| >= 3 {
      BodyLength(b[3..]);
      var m := |Body(b[3..])|;
      assert |Body(b)| == 4 + m;
      assert (4 + m) % 4 == m % 4;
      assert (|b| - 3) % 3 == |b| % 3;
    }
  }



  /** A character of the URL-safe alphabet of section 5 of RFC 4648. */
  predicate InUrlAlphabet(c: char) {
    ('A' <= c <= 'Z') || ('a' <= c <= 'z') || ('0' <= c <= '9') || c == '-' || c == '_'
  }

  /** Trimming a run of `c` appended to a text that does not end in `c` gives the text back. */
  lemma {:induction false} TrimEndAppended(body: string, pad: string, c: char)
    requires body == [] || body[|body| - 1] != c
    requires forall i :: 0 <= i < |pad| ==> pad[i] == c
    ensures TrimEnd(body + pad, c) == body
  {
    if pad == [] {
      assert body + pad == body;
    } else {
      var s := body + pad;
      assert s[|s| - 1] == c;
      assert s[..|s| - 1] == body + pad[..|pad| - 1];
      TrimEndAppended(body, pad[..|pad| - 1], c);
    }
  }

  /** Trimming removes exactly the padding, since the body never ends in '='. */
  lemma TrimPadding(b: seq<Byte>)
    ensures TrimEnd(ToBase64String(b), '=') == Body(b)
  {
    assert !InAlphabet('=');
    TrimEndAppended(Body(b), Padding(|b|), '=');
  }

  /** The shaped text is the body with '+' and '/' swapped for '-' and '_'; every character is URL-safe. */
  lemma UrlShape(b: seq<Byte>)
    ensures var u := ToBase64UrlUnpadded(b);
      && |u| == |Body(b)|
      && (forall i :: 0 <= i < |u| ==> InUrlAlphabet(u[i]))
      && (forall i :: 0 <= i < |u| ==> u[i] == (if Body(b)[i] == '+' then '-' else if Body(b)[i] == '/' then '_' else Body(b)[i]))
  {
    TrimPadding(b);
    var body := Body(b);
    forall i | 0 <= i < |body|
      ensures InUrlAlphabet(if body[i] == '+' then '-' else if body[i] == '/' then '_' else body[i])
    {
      assert InAlphabet(body[i]);
    }
  }

  /** Thirty-two bytes shape to 43 characters, none of them '=', '+' or '/'. */
  lemma UrlShape32(b: Bytes32)
    ensures var u := ToBase64UrlUnpadded(b);
      |u| == 43 && '=' !in u && '+' !in u && '/' !in u
  {
    UrlShape(b);
  }
}
