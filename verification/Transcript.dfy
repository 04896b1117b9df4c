/** What an envelope is bound to, as bytes: the key-derivation salt, the key label and the
    authenticated data. */
module Transcript {
  import opened Bytes
  import opened Token

  type Bytes32 = s: seq<Byte> | |s| == 32 witness seq(32, _ => 0)

  type Uuid = s: seq<Byte> | |s| == 16 witness seq(16, _ => 0)

  datatype Direction = Request | Response

  datatype Transcript = Transcript(version: Byte, tokenClass: TokenClass, requestId: Uuid, clientNonce: Bytes32,
                                   ephPub: Bytes32, gatewayPub: Bytes32)

  const VERSION: Byte := 2

  // ---------------------------------------------------------------- the text of a UUID

  function HexText(s: seq<Byte>): (t: seq<Byte>)
    ensures |t| == 2 * |s|
  {
    if s == [] then [] else [HexDigit(s[0] / 16) as int, HexDigit(s[0] % 16) as int] + HexText(s[1..])
  }

  lemma {:induction false} HexTextInjective(s: seq<Byte>, t: seq<Byte>)
    requires HexText(s) == HexText(t)
    ensures s == t
  {
    if s == [] {
      assert t == [];
    } else {
      assert HexText(s)[0] == HexText(t)[0] && HexText(s)[1] == HexText(t)[1];
      HexDigitInjective(s[0] / 16, t[0] / 16);
      HexDigitInjective(s[0] % 16, t[0] % 16);
      assert HexText(s)[2..] == HexText(s[1..]) && HexText(t)[2..] == HexText(t[1..]);
      HexTextInjective(s[1..], t[1..]);
      assert s == [s[0]] + s[1..] && t == [t[0]] + t[1..];
    }
  }

  /** Lower-case hex in groups of 8, 4, 4, 4 and 12, with hyphens between. */
  function UuidText(id: Uuid): (t: seq<Byte>)
    ensures |t| == 36
  {
    var h := HexText(id);
    h[..8] + ['-' as int] + h[8..12] + ['-' as int] + h[12..16] + ['-' as int] + h[16..20] + ['-' as int] + h[20..]
  }

  lemma UuidTextInjective(a: Uuid, b: Uuid)
    requires UuidText(a) == UuidText(b)
    ensures a == b
  {
    UuidTextParts(a);
    UuidTextParts(b);
    HexTextInjective(a, b);
  }

  lemma UuidTextParts(a: Uuid)
    ensures var t := UuidText(a); HexText(a) == t[..8] + t[9..13] + t[14..18] + t[19..23] + t[24..]
  {
    var h, t := HexText(a), UuidText(a);
    assert t[..8] == h[..8] && t[9..13] == h[8..12] && t[14..18] == h[12..16] && t[19..23] == h[16..20]
           && t[24..] == h[20..];
  }

  // ---------------------------------------------------------------- binding material

  function Fields(t: Transcript): (v: seq<Byte>)
    ensures |v| == 134
  {
    [t.version, ClassId(t.tokenClass)] + UuidText(t.requestId) + t.clientNonce + t.ephPub + t.gatewayPub
  }

  function BindingMaterial(name: seq<Byte>, t: Transcript): seq<Byte> { name + Fields(t) }

  lemma FieldsInjective(t: Transcript, u: Transcript)
    requires Fields(t) == Fields(u)
    ensures t == u
  {
    FieldsParts(t);
    FieldsParts(u);
    UuidTextInjective(t.requestId, u.requestId);
    ClassIdInjective(t.tokenClass, u.tokenClass);
  }

  lemma FieldsParts(t: Transcript)
    ensures var v := Fields(t);
            && v[0] == t.version && v[1] == ClassId(t.tokenClass) && v[2..38] == UuidText(t.requestId)
            && v[38..70] == t.clientNonce && v[70..102] == t.ephPub && v[102..134] == t.gatewayPub
  {
  }

  lemma ClassIdInjective(c: TokenClass, d: TokenClass)
    ensures ClassId(c) == ClassId(d) <==> c == d
  {
  }

  /** The same bytes mean the same label and the same transcript: every field has a fixed width, so
      nothing can move from one field to the next. */
  lemma BindingMaterialInjective(name: seq<Byte>, t: Transcript, name': seq<Byte>, u: Transcript)
    ensures BindingMaterial(name, t) == BindingMaterial(name', u) <==> name == name' && t == u
  {
    var v, w := BindingMaterial(name, t), BindingMaterial(name', u);
    if v == w {
      assert |name| == |name'|;
      assert name == v[..|name|] && name' == w[..|name|];
      assert Fields(t) == v[|name|..] && Fields(u) == w[|name|..];
      FieldsInjective(t, u);
    }
  }

  /** The buffer, filled field by field. */
  method FillBindingMaterial(name: seq<Byte>, t: Transcript) returns (v: seq<Byte>)
    ensures v == BindingMaterial(name, t)
  {
    v := name;
    v := v + [t.version];
    v := v + [ClassId(t.tokenClass)];
    v := v + UuidText(t.requestId);
    v := v + t.clientNonce;
    v := v + t.ephPub;
    v := v + t.gatewayPub;
    FlatFields(name, [t.version], [ClassId(t.tokenClass)], UuidText(t.requestId), t.clientNonce, t.ephPub,
               t.gatewayPub);
  }

  lemma FlatFields(a: seq<Byte>, b: seq<Byte>, c: seq<Byte>, d: seq<Byte>, e: seq<Byte>, f: seq<Byte>, g: seq<Byte>)
    ensures a + b + c + d + e + f + g == a + (b + c + d + e + f + g)
  {
  }

  // ---------------------------------------------------------------- salt, key label, authenticated data

  const KDF_LABEL: seq<Byte> := ByteString("zk-llm-gateway-envelope-kdf-v2")

  const AAD_LABEL: seq<Byte> := ByteString("zk-llm-gateway-envelope-aad-v2")

  const INFO_LABEL: seq<Byte> := ByteString("zk-llm-gateway-envelope-v2")

  function HkdfInfo(c: TokenClass, d: Direction): seq<Byte> {
    INFO_LABEL + (if d == Request then ByteString("/req") else ByteString("/resp")) + [ClassId(c)]
  }

  function DirectionByte(d: Direction): Byte { if d == Request then 1 else 2 }

  function AadBytes(t: Transcript, d: Direction): seq<Byte> { BindingMaterial(AAD_LABEL, t) + [DirectionByte(d)] }

  /** Authenticated data names exactly one transcript and one direction. */
  lemma AadInjective(t: Transcript, d: Direction, u: Transcript, e: Direction)
    ensures AadBytes(t, d) == AadBytes(u, e) <==> t == u && d == e
  {
    var v, w := AadBytes(t, d), AadBytes(u, e);
    if v == w {
      assert v[..|v| - 1] == BindingMaterial(AAD_LABEL, t) && w[..|w| - 1] == BindingMaterial(AAD_LABEL, u);
      assert v[|v| - 1] == DirectionByte(d) && w[|w| - 1] == DirectionByte(e);
      BindingMaterialInjective(AAD_LABEL, t, AAD_LABEL, u);
    }
  }

  /** A key label names exactly one class and one direction. */
  lemma HkdfInfoInjective(c: TokenClass, d: Direction, c': TokenClass, d': Direction)
    ensures HkdfInfo(c, d) == HkdfInfo(c', d') <==> c == c' && d == d'
  {
    var v, w := HkdfInfo(c, d), HkdfInfo(c', d');
    assert |v| == |INFO_LABEL| + (if d == Request then 5 else 6);
    assert |w| == |INFO_LABEL| + (if d' == Request then 5 else 6);
    assert v[|v| - 1] == ClassId(c) && w[|w| - 1] == ClassId(c');
    ClassIdInjective(c, c');
  }

  method FillHkdfInfo(c: TokenClass, d: Direction) returns (v: seq<Byte>)
    ensures v == HkdfInfo(c, d)
  {
    v := INFO_LABEL;
    match d {
      case Request => v := v + ByteString("/req");
      case Response => v := v + ByteString("/resp");
    }
    v := v + [ClassId(c)];
  }

  method FillAadBytes(t: Transcript, d: Direction) returns (v: seq<Byte>)
    ensures v == AadBytes(t, d)
  {
    v := FillBindingMaterial(AAD_LABEL, t);
    v := v + [DirectionByte(d)];
  }
}
