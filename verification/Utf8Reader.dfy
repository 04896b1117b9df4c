/** UTF-8 read back after section 3 of RFC 3629. */
module Utf8Reader {
  import opened Bytes

  /** The six bits of a continuation byte. */
  function Continuation(b: Byte): Option<nat> { if 0x80 <= b < 0xC0 then Some(b - 0x80) else None }

  /** A code point that takes `w` bytes and no fewer, and is no surrogate. */
  function Scalar(p: nat, least: nat): Option<char> {
    if least <= p && (p < 0xD800 || 0xE000 <= p < 0x11_0000) then Some(p as char) else None
  }

  /** The first character, by the number of leading ones of its first byte, and how many bytes it takes. */
  function ReadFirst(s: seq<Byte>): (r: Option<(char, nat)>)
    ensures r.Some? ==> 1 <= r.value.1 <= |s|
  {
    if s == [] then None
    else if s[0] < 0x80 then Some((s[0] as char, 1))
    else if 0xC0 <= s[0] < 0xE0 && |s| >= 2 then
      match Continuation(s[1])
      case Some(a) => Sized(Scalar(64 * (s[0] as int - 0xC0) + a, 0x80), 2)
      case None => None
    else if 0xE0 <= s[0] < 0xF0 && |s| >= 3 then
      match (Continuation(s[1]), Continuation(s[2]))
      case (Some(a), Some(b)) => Sized(Scalar(4096 * (s[0] as int - 0xE0) + 64 * a + b, 0x800), 3)
      case _ => None
    else if 0xF0 <= s[0] < 0xF8 && |s| >= 4 then
      match (Continuation(s[1]), Continuation(s[2]), Continuation(s[3]))
      case (Some(a), Some(b), Some(c)) =>
        Sized(Scalar(262144 * (s[0] as int - 0xF0) + 4096 * a + 64 * b + c, 0x1_0000), 4)
      case _ => None
    else None
  }

  function Sized(c: Option<char>, n: nat): Option<(char, nat)> { if c.Some? then Some((c.value, n)) else None }

  function ReadText(s: seq<Byte>): Option<string>
    decreases |s|
  {
    if s == [] then Some("")
    else match ReadFirst(s)
      case None => None
      case Some((c, n)) =>
        match ReadText(s[n..])
        case None => None
        case Some(rest) => Some([c] + rest)
  }

  /** A code point is recovered from its six-bit groups. */
  lemma SixBitGroups(p: nat)
    ensures p == 64 * (p / 64) + p % 64
    ensures p == 4096 * (p / 4096) + 64 * (p / 64 % 64) + p % 64
    ensures p == 262144 * (p / 262144) + 4096 * (p / 4096 % 64) + 64 * (p / 64 % 64) + p % 64
  {
    Nested(p, 64);
    Nested(p, 4096);
  }

  lemma Nested(p: nat, k: nat)
    requires k == 64 || k == 4096
    ensures p / (64 * k) == p / k / 64
  {
  }

  lemma ShortReads(c: char, x: seq<Byte>)
    requires Width(c) <= 2
    ensures ReadFirst(EncodeChar(c) + x) == Some((c, Width(c)))
  {
    SixBitGroups(c as int);
    var t := EncodeChar(c) + x;
    assert t[0] == EncodeChar(c)[0] && (Width(c) == 2 ==> t[1] == EncodeChar(c)[1]);
  }

  lemma ThreeReads(c: char, x: seq<Byte>)
    requires Width(c) == 3
    ensures ReadFirst(EncodeChar(c) + x) == Some((c, 3))
  {
    SixBitGroups(c as int);
    var t := EncodeChar(c) + x;
    assert t[0] == EncodeChar(c)[0] && t[1] == EncodeChar(c)[1] && t[2] == EncodeChar(c)[2];
  }

  lemma FourReads(c: char, x: seq<Byte>)
    requires Width(c) == 4
    ensures ReadFirst(EncodeChar(c) + x) == Some((c, 4))
  {
    SixBitGroups(c as int);
    var t := EncodeChar(c) + x;
    assert t[0] == EncodeChar(c)[0] && t[1] == EncodeChar(c)[1] && t[2] == EncodeChar(c)[2] && t[3] == EncodeChar(c)[3];
  }

  lemma FirstReads(c: char, x: seq<Byte>)
    ensures ReadFirst(EncodeChar(c) + x) == Some((c, Width(c)))
  {
    if Width(c) <= 2 { ShortReads(c, x); } else if Width(c) == 3 { ThreeReads(c, x); } else { FourReads(c, x); }
  }

  /** Encoded text is read back. */
  lemma {:induction false} Utf8Reads(s: string)
    ensures ReadText(Utf8(s)) == Some(s)
  {
    if s != [] {
      Utf8Reads(s[1..]);
      FirstReads(s[0], Utf8(s[1..]));
      assert Utf8(s)[Width(s[0])..] == Utf8(s[1..]);
      assert s == [s[0]] + s[1..];
    }
  }

  lemma Utf8Injective(s: string, t: string)
    requires Utf8(s) == Utf8(t)
    ensures s == t
  {
    Utf8Reads(s);
    Utf8Reads(t);
  }
}
