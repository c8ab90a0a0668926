/** Standard base64 (section 4 of RFC 4648), as Node's
    `Buffer.toString('base64')` produces it, with its decoder. */
module Base64 {
  import opened Wrappers
  import opened Seqs

  type Byte = b: int | 0 <= b < 256
  type Sextet = s: int | 0 <= s < 64

  /** The standard alphabet: A-Z, a-z, 0-9, '+', '/'. */
  function StdChar(s: Sextet): char {
    if s < 26 then ('A' as int + s) as char
    else if s < 52 then ('a' as int + s - 26) as char
    else if s < 62 then ('0' as int + s - 52) as char
    else if s == 62 then '+'
    else '/'
  }

  /** The value of a character of the standard alphabet. */
  function StdValue(c: char): Option<Sextet> {
    if 'A' <= c <= 'Z' then Some(c as int - 'A' as int)
    else if 'a' <= c <= 'z' then Some(c as int - 'a' as int + 26)
    else if '0' <= c <= '9' then Some(c as int - '0' as int + 52)
    else if c == '+' then Some(62)
    else if c == '/' then Some(63)
    else None
  }

  predicate IsStdChar(c: char) {
    StdValue(c).Some?
  }

  lemma StdValueOfChar(s: Sextet)
    ensures StdValue(StdChar(s)) == Some(s)
    ensures StdChar(s) != '='
  {
  }

  /** Four characters for three bytes. */
  function EncodeGroup(b0: Byte, b1: Byte, b2: Byte): string {
    [StdChar(b0 / 4), StdChar((b0 % 4) * 16 + b1 / 16), StdChar((b1 % 16) * 4 + b2 / 64), StdChar(b2 % 64)]
  }

  /** `Buffer.from(bytes).toString('base64')`: groups of three bytes, and a
      last group of one or two bytes padded with '='. */
  function Encode(b: seq<Byte>): string {
    if |b| == 0 then ""
    else if |b| == 1 then [StdChar(b[0] / 4), StdChar((b[0] % 4) * 16), '=', '=']
    else if |b| == 2 then [StdChar(b[0] / 4), StdChar((b[0] % 4) * 16 + b[1] / 16), StdChar((b[1] % 16) * 4), '=']
    else EncodeGroup(b[0], b[1], b[2]) + Encode(b[3..])
  }

  /** The number of '=' that pad the encoding of `n` bytes. */
  function PadCount(n: nat): nat {
    if n % 3 == 0 then 0 else 3 - n % 3
  }

  /** Three more bytes add one group and keep the padding. */
  lemma GroupStep(n: nat)
    requires n >= 3
    ensures (n + 2) / 3 == (n - 3 + 2) / 3 + 1
    ensures PadCount(n) == PadCount(n - 3)
  {
  }

  /** The encoding has four characters per started group of three bytes; the
      last `PadCount` of them are '=', all others are of the standard alphabet. */
  lemma {:induction false} EncodeShape(b: seq<Byte>)
    ensures |Encode(b)| == 4 * ((|b| + 2) / 3)
    ensures |Encode(b)| >= PadCount(|b|)
    ensures forall i :: 0 <= i < |Encode(b)| - PadCount(|b|) ==> IsStdChar(Encode(b)[i])
    ensures forall i :: |Encode(b)| - PadCount(|b|) <= i < |Encode(b)| ==> Encode(b)[i] == '='
  {
    if |b| >= 3 {
      var g := EncodeGroup(b[0], b[1], b[2]);
      EncodeShape(b[3..]);
      StdValueOfChar(b[0] / 4);
      StdValueOfChar((b[0] % 4) * 16 + b[1] / 16);
      StdValueOfChar((b[1] % 16) * 4 + b[2] / 64);
      StdValueOfChar(b[2] % 64);
      assert Encode(b) == g + Encode(b[3..]);
      GroupStep(|b|);
      forall i | 0 <= i < |Encode(b)| - PadCount(|b|) ensures IsStdChar(Encode(b)[i]) {
        if i >= 4 { assert Encode(b)[i] == Encode(b[3..])[i - 4]; }
      }
      forall i | |Encode(b)| - PadCount(|b|) <= i < |Encode(b)| ensures Encode(b)[i] == '=' {
        assert Encode(b)[i] == Encode(b[3..])[i - 4];
      }
    } else if |b| == 2 {
      StdValueOfChar(b[0] / 4);
      StdValueOfChar((b[0] % 4) * 16 + b[1] / 16);
      StdValueOfChar((b[1] % 16) * 4);
    } else if |b| == 1 {
      StdValueOfChar(b[0] / 4);
      StdValueOfChar((b[0] % 4) * 16);
    }
  }

  /** Three bytes from four sextets. */
  function DecodeGroup(s0: Sextet, s1: Sextet, s2: Sextet, s3: Sextet): seq<Byte> {
    var b: seq<Byte> := [s0 * 4 + s1 / 16, (s1 % 16) * 16 + s2 / 4, (s2 % 4) * 64 + s3];
    b
  }

  /** The last group of four characters, which may end in "=" or "==". */
  function DecodeLast(g: string): Option<seq<Byte>>
    requires |g| == 4
  {
    match (StdValue(g[0]), StdValue(g[1]), StdValue(g[2]), StdValue(g[3]))
    case (Some(s0), Some(s1), None, None) =>
      var b: seq<Byte> := [(s0 as int) * 4 + (s1 as int) / 16];
      if g[2] == '=' && g[3] == '=' then Some(b) else None
    case (Some(s0), Some(s1), Some(s2), None) =>
      var b: seq<Byte> := [(s0 as int) * 4 + (s1 as int) / 16, ((s1 as int) % 16) * 16 + (s2 as int) / 4];
      if g[3] == '=' then Some(b) else None
    case (Some(s0), Some(s1), Some(s2), Some(s3)) => Some(DecodeGroup(s0, s1, s2, s3))
    case _ => None
  }

  /** Standard base64 decoding of padded text; None for text that is not
      a padded encoding. */
  function Decode(s: string): Option<seq<Byte>>
    decreases |s|
  {
    if |s| == 0 then Some([])
    else if |s| < 4 then None
    else if |s| == 4 then DecodeLast(s)
    else
      match (StdValue(s[0]), StdValue(s[1]), StdValue(s[2]), StdValue(s[3]), Decode(s[4..]))
      case (Some(s0), Some(s1), Some(s2), Some(s3), Some(rest)) => Some(DecodeGroup(s0, s1, s2, s3) + rest)
      case _ => None
  }

  /** A high part and a low part below the divisor split apart again. */
  lemma Split16(hi: int, lo: int)
    requires 0 <= lo < 16
    ensures (hi * 16 + lo) / 16 == hi && (hi * 16 + lo) % 16 == lo
  {
  }

  lemma Split4(hi: int, lo: int)
    requires 0 <= lo < 4
    ensures (hi * 4 + lo) / 4 == hi && (hi * 4 + lo) % 4 == lo
  {
  }

  /** The sextets of a group give its three bytes back. */
  lemma GroupRoundTrip(b0: Byte, b1: Byte, b2: Byte)
    ensures DecodeGroup(b0 / 4, (b0 % 4) * 16 + b1 / 16, (b1 % 16) * 4 + b2 / 64, b2 % 64) == [b0, b1, b2]
  {
    Split16(b0 % 4, b1 / 16);
    Split4(b1 % 16, b2 / 64);
    assert (b0 / 4) * 4 + b0 % 4 == b0;
    assert (b1 / 16) * 16 + b1 % 16 == b1;
    assert (b2 / 64) * 64 + b2 % 64 == b2;
  }

  /** The four characters of a group are of the standard alphabet and their
      values decode to the group's bytes. */
  lemma GroupDecodes(b0: Byte, b1: Byte, b2: Byte)
    ensures var g := EncodeGroup(b0, b1, b2);
      |g| == 4 && StdValue(g[0]).Some? && StdValue(g[1]).Some? && StdValue(g[2]).Some? && StdValue(g[3]).Some? &&
      DecodeGroup(StdValue(g[0]).value, StdValue(g[1]).value, StdValue(g[2]).value, StdValue(g[3]).value) == [b0, b1, b2]
  {
    StdValueOfChar(b0 / 4);
    StdValueOfChar((b0 % 4) * 16 + b1 / 16);
    StdValueOfChar((b1 % 16) * 4 + b2 / 64);
    StdValueOfChar(b2 % 64);
    GroupRoundTrip(b0, b1, b2);
  }

  /** Decoding a full group followed by more text decodes the group and then the rest. */
  lemma DecodeFullGroup(b0: Byte, b1: Byte, b2: Byte, rest: string)
    requires |rest| >= 4
    ensures Decode(EncodeGroup(b0, b1, b2) + rest) ==
      match Decode(rest) case Some(r) => Some([b0, b1, b2] + r) case None => None
  {
    var g := EncodeGroup(b0, b1, b2);
    var s := g + rest;
    GroupDecodes(b0, b1, b2);
    assert s[4..] == rest;
    assert s[0] == g[0] && s[1] == g[1] && s[2] == g[2] && s[3] == g[3];
  }

  /** Decoding a lone full group gives its three bytes. */
  lemma DecodeLastFull(b0: Byte, b1: Byte, b2: Byte)
    ensures Decode(EncodeGroup(b0, b1, b2)) == Some([b0, b1, b2])
  {
    GroupDecodes(b0, b1, b2);
  }

  /** The encoding of two bytes decodes to them. */
  lemma DecodeTwo(b0: Byte, b1: Byte)
    ensures Decode(Encode([b0, b1])) == Some([b0, b1])
  {
    StdValueOfChar(b0 / 4);
    StdValueOfChar((b0 % 4) * 16 + b1 / 16);
    StdValueOfChar((b1 % 16) * 4);
    Split16(b0 % 4, b1 / 16);
    assert (b0 / 4) * 4 + b0 % 4 == b0;
    assert (b1 / 16) * 16 + b1 % 16 == b1;
  }

  /** The encoding of one byte decodes to it. */
  lemma DecodeOne(b0: Byte)
    ensures Decode(Encode([b0])) == Some([b0])
  {
    StdValueOfChar(b0 / 4);
    StdValueOfChar((b0 % 4) * 16);
    assert (b0 / 4) * 4 + b0 % 4 == b0;
  }

  /** Decoding an encoding gives the bytes back. */
  lemma {:induction false} DecodeEncode(b: seq<Byte>)
    ensures Decode(Encode(b)) == Some(b)
  {
    if |b| > 3 {
      DecodeEncode(b[3..]);
      DecodeEncodeGroup(b);
    } else if |b| == 3 {
      DecodeLastFull(b[0], b[1], b[2]);
      assert Encode(b) == EncodeGroup(b[0], b[1], b[2]) + "";
      assert [b[0], b[1], b[2]] == b;
    } else if |b| == 2 {
      assert [b[0], b[1]] == b;
      DecodeTwo(b[0], b[1]);
    } else if |b| == 1 {
      assert [b[0]] == b;
      DecodeOne(b[0]);
    }
  }

  /** A first group of three bytes followed by more: if the rest round-trips, so does the whole. */
  lemma DecodeEncodeGroup(b: seq<Byte>)
    requires |b| > 3 && Decode(Encode(b[3..])) == Some(b[3..])
    ensures Decode(Encode(b)) == Some(b)
  {
    EncodeShape(b[3..]);
    DecodeFullGroup(b[0], b[1], b[2], Encode(b[3..]));
    SplitThree(b);
  }
}
