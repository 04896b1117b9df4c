/** The bound bytes read back field by field: which byte is where. */
module TranscriptReader {
  import opened Bytes
  import opened Token
  import opened Transcript

  // ---------------------------------------------------------------- UUIDs

  /** A hex digit, of either case, in ASCII. */
  function Nibble(b: Byte): Option<nat> {
    if 48 <= b <= 57 then Some(b - 48)
    else if 97 <= b <= 102 then Some(b - 87)
    else if 65 <= b <= 70 then Some(b - 55)
    else None
  }

  function ReadHex(t: seq<Byte>): Option<seq<Byte>>
    decreases |t|
  {
    if t == [] then Some([])
    else if |t| == 1 then None
    else match (Nibble(t[0]), Nibble(t[1]), ReadHex(t[2..]))
      case (Some(a), Some(b), Some(rest)) => if a < 16 && b < 16 then Some([16 * a + b] + rest) else None
      case _ => None
  }

  /** 8, 4, 4, 4 and 12 digits with hyphens between, as in section 4 of RFC 9562. */
  function ReadUuid(t: seq<Byte>): Option<Uuid> {
    if |t| != 36 || t[8] != 45 || t[13] != 45 || t[18] != 45 || t[23] != 45 then None
    else match ReadHex(t[..8] + t[9..13] + t[14..18] + t[19..23] + t[24..])
      case Some(id) => if |id| == 16 then Some(id) else None
      case None => None
  }

  lemma NibbleReads(n: nat)
    requires n < 16
    ensures HexDigit(n) as int < 256 && Nibble(HexDigit(n) as int) == Some(n)
  {
  }

  lemma {:induction false} HexReads(s: seq<Byte>)
    ensures ReadHex(HexText(s)) == Some(s)
  {
    if s != [] {
      HexReads(s[1..]);
      NibbleReads(s[0] / 16);
      NibbleReads(s[0] % 16);
      assert HexText(s)[2..] == HexText(s[1..]);
      assert 16 * (s[0] / 16) + s[0] % 16 == s[0];
      assert s == [s[0]] + s[1..];
    }
  }

  lemma UuidReads(id: Uuid)
    ensures ReadUuid(UuidText(id)) == Some(id)
  {
    UuidTextParts(id);
    HexReads(id);
    Hyphens(HexText(id));
  }

  lemma Hyphens(h: seq<Byte>)
    requires |h| == 32
    ensures var t := h[..8] + ['-' as int] + h[8..12] + ['-' as int] + h[12..16] + ['-' as int] + h[16..20]
                     + ['-' as int] + h[20..];
            t[8] == 45 && t[13] == 45 && t[18] == 45 && t[23] == 45
  {
  }

  // ---------------------------------------------------------------- transcripts

  function ReadClass(b: Byte): Option<TokenClass> {
    match b
    case 1 => Some(C256)
    case 2 => Some(C512)
    case 3 => Some(C1024)
    case 4 => Some(C2048)
    case 5 => Some(C4096)
    case _ => None
  }

  /** Behind a label: version, class, id, nonce and the two keys. */
  function ReadTranscript(name: string, v: seq<Byte>): Option<Transcript> {
    var n := |name|;
    if |v| != n + 134 || v[..n] != ByteString(name) then None
    else match (ReadClass(v[n + 1]), ReadUuid(v[n + 2..n + 38]))
      case (Some(c), Some(id)) =>
        Some(Transcript(v[n], c, id, v[n + 38..n + 70], v[n + 70..n + 102], v[n + 102..]))
      case _ => None
  }

  lemma ClassReads(c: TokenClass)
    ensures ReadClass(ClassId(c)) == Some(c)
  {
  }

  lemma Behind(a: seq<Byte>, b: seq<Byte>, i: nat, j: nat)
    requires i <= j <= |b|
    ensures (a + b)[|a| + i..|a| + j] == b[i..j]
  {
  }

  lemma FieldsBehind(name: seq<Byte>, t: Transcript)
    ensures var (v, n) := (name + Fields(t), |name|);
            && |v| == n + 134 && v[..n] == name && v[n] == t.version && v[n + 1] == ClassId(t.tokenClass)
            && v[n + 2..n + 38] == UuidText(t.requestId) && v[n + 38..n + 70] == t.clientNonce
            && v[n + 70..n + 102] == t.ephPub && v[n + 102..] == t.gatewayPub
  {
    var v, n := name + Fields(t), |name|;
    FieldsParts(t);
    Behind(name, Fields(t), 2, 38);
    Behind(name, Fields(t), 38, 70);
    Behind(name, Fields(t), 70, 102);
    Behind(name, Fields(t), 102, 134);
    assert v[n + 102..] == v[n + 102..n + 134];
  }

  /** The key-derivation material of a transcript is read back as that transcript. */
  lemma SaltMaterialReads(t: Transcript)
    ensures ReadTranscript("zk-llm-gateway-envelope-kdf-v2", BindingMaterial(KDF_LABEL, t)) == Some(t)
  {
    FieldsBehind(KDF_LABEL, t);
    ClassReads(t.tokenClass);
    UuidReads(t.requestId);
  }

  /** And so is the authenticated data, whose last byte is 1 for requests and 2 for responses. */
  lemma AadReads(t: Transcript, d: Direction)
    ensures var v := AadBytes(t, d);
            && |v| == 165 && v[164] == (if d == Request then 1 else 2)
            && ReadTranscript("zk-llm-gateway-envelope-aad-v2", v[..164]) == Some(t)
  {
    var v := AadBytes(t, d);
    FieldsBehind(AAD_LABEL, t);
    ClassReads(t.tokenClass);
    UuidReads(t.requestId);
    assert v[..164] == BindingMaterial(AAD_LABEL, t);
  }

  /** The key label as text, with the class at its end. */
  lemma HkdfInfoReads(c: TokenClass, d: Direction)
    ensures var v := HkdfInfo(c, d);
            && v[..|v| - 1] == ByteString(if d == Request then "zk-llm-gateway-envelope-v2/req"
                                          else "zk-llm-gateway-envelope-v2/resp")
            && ReadClass(v[|v| - 1]) == Some(c)
  {
    ClassReads(c);
    ByteStringConcat("zk-llm-gateway-envelope-v2", if d == Request then "/req" else "/resp");
    assert "zk-llm-gateway-envelope-v2" + "/req" == "zk-llm-gateway-envelope-v2/req";
    assert "zk-llm-gateway-envelope-v2" + "/resp" == "zk-llm-gateway-envelope-v2/resp";
    var v := HkdfInfo(c, d);
    assert v[..|v| - 1] == INFO_LABEL + ByteString(if d == Request then "/req" else "/resp");
  }

  lemma ByteStringConcat(a: string, b: string)
    ensures ByteString(a + b) == ByteString(a) + ByteString(b)
  {
  }
}
