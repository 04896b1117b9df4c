/** Sealing and opening envelopes. Keys and ciphertexts are terms: two are the same only when they are
    made from the same parts, which is the ideal reading of the hash, the key derivation and the
    authenticated cipher. */
module Envelope {
  import opened Bytes
  import opened Token
  import opened Transcript

  /** A Diffie-Hellman result, identified by the two points it is made from. */
  type Shared = multiset<int>

  /** How public-key bytes name points; several encodings may name one point. A secret is identified
      with its public bytes. With a point of low order every shared secret is zero. */
  datatype Curve = Curve(point: Bytes32 -> int, lowOrder: int -> bool)

  datatype Key = DerivedKey(shared: Shared, salt: seq<Byte>, info: seq<Byte>)

  type Nonce = seq<Byte>

  datatype Cipher = Sealed(key: Key, nonce: Nonce, aad: seq<Byte>, plaintext: seq<Byte>) | Junk(bytes: seq<Byte>)

  /** The fields that travel in base64 are `None` when they do not decode. */
  datatype Envelope = Envelope(version: Byte, tokenClass: TokenClass, requestId: Uuid, clientNonce: Option<seq<Byte>>,
                               ephPub: Option<seq<Byte>>, nonce: Option<seq<Byte>>, ciphertext: Option<Cipher>)

  datatype ClientContext = ClientContext(ephPub: Bytes32, gatewayPub: Bytes32, clientNonce: Bytes32, requestId: Uuid,
                                         tokenClass: TokenClass)

  datatype Failure = UnsupportedVersion | RequestIdMismatch | ClassMismatch | BadEphKey | UnexpectedEphKey
      | BadClientNonce
    | ClientNonceMismatch | BadNonce | BadCiphertext | BadSharedSecret | DecryptFailed | TooLarge

  datatype Result<+T> = Ok(value: T) | Err(error: Failure)

  // ---------------------------------------------------------------- the primitives

  function DiffieHellman(x: Curve, own: Bytes32, other: Bytes32): Result<Shared> {
    if x.lowOrder(x.point(other)) then Err(BadSharedSecret) else Ok(multiset{x.point(own), x.point(other)})
  }

  function DeriveKey(shared: Shared, t: Transcript, d: Direction): Key {
    DerivedKey(shared, BindingMaterial(KDF_LABEL, t.(version := VERSION)), HkdfInfo(t.tokenClass, d))
  }

  function Encrypt(k: Key, nonce: Nonce, aad: seq<Byte>, plaintext: seq<Byte>): Cipher
  {
    Sealed(k, nonce, aad, plaintext)
  }

  function Decrypt(k: Key, nonce: Nonce, aad: seq<Byte>, c: Cipher): Result<seq<Byte>> {
    if c.Sealed? && c.key == k && c.nonce == nonce && c.aad == aad then Ok(c.plaintext) else Err(DecryptFailed)
  }

  function Decode32(field: Option<seq<Byte>>, error: Failure): Result<Bytes32> {
    if field.Some? && |field.value| == 32 then Ok(field.value) else Err(error)
  }

  function DecodeNonce(field: Option<seq<Byte>>): Result<Nonce> {
    if field.Some? && |field.value| == 12 then Ok(field.value) else Err(BadNonce)
  }

  function DecodeCiphertext(field: Option<Cipher>): Result<Cipher> {
    if field.Some? then Ok(field.value) else Err(BadCiphertext)
  }

  function ContextTranscript(ctx: ClientContext, version: Byte): Transcript {
    Transcript(version, ctx.tokenClass, ctx.requestId, ctx.clientNonce, ctx.ephPub, ctx.gatewayPub)
  }

  // ---------------------------------------------------------------- the four operations

  /** The client seals a request with a fresh key pair and nonces. */
  method SealRequestForGateway(x: Curve, gatewayPub: Bytes32, c: TokenClass, id: Uuid, plaintext: seq<Byte>,
                               ephPub: Bytes32, clientNonce: Bytes32, nonce: Nonce)
    returns (r: Result<(Envelope, ClientContext)>)
    ensures r == SealedRequest(x, gatewayPub, c, id, plaintext, ephPub, clientNonce, nonce)
  {
    var padded := Padded(plaintext, RequestPlaintextBytes(c));
    if padded.None? { return Err(TooLarge); }
    var shared := DiffieHellman(x, ephPub, gatewayPub);
    if shared.Err? { return Err(shared.error); }
    var t := Transcript(VERSION, c, id, clientNonce, ephPub, gatewayPub);
    var salt := FillBindingMaterial(KDF_LABEL, t);
    var info := FillHkdfInfo(c, Request);
    var aad := FillAadBytes(t, Request);
    var sealed := Encrypt(DerivedKey(shared.value, salt, info), nonce, aad, padded.value);
    return Ok((Envelope(VERSION, c, id, Some(clientNonce), Some(ephPub), Some(nonce), Some(sealed)),
               ClientContext(ephPub, gatewayPub, clientNonce, id, c)));
  }

  function SealedRequest(x: Curve, gatewayPub: Bytes32, c: TokenClass, id: Uuid, plaintext: seq<Byte>, ephPub: Bytes32,
                         clientNonce: Bytes32, nonce: Nonce): Result<(Envelope, ClientContext)>
  {
    match Padded(plaintext, RequestPlaintextBytes(c))
    case None => Err(TooLarge)
    case Some(padded) =>
      match DiffieHellman(x, ephPub, gatewayPub)
      case Err(e) => Err(e)
      case Ok(shared) =>
        var ctx := ClientContext(ephPub, gatewayPub, clientNonce, id, c);
        var t := ContextTranscript(ctx, VERSION);
        var cipher := Encrypt(DeriveKey(shared, t, Request), nonce, AadBytes(t, Request), padded);
        Ok((Envelope(VERSION, c, id, Some(clientNonce), Some(ephPub), Some(nonce), Some(cipher)), ctx))
  }

  /** The gateway opens a request with its static key. */
  function OpenRequestAtGateway(x: Curve, gateway: Bytes32, env: Envelope): Result<seq<Byte>> {
    if env.version != VERSION then Err(UnsupportedVersion)
    else match Decode32(env.ephPub, BadEphKey)
    case Err(e) => Err(e)
    case Ok(eph) =>
      match Decode32(env.clientNonce, BadClientNonce)
      case Err(e) => Err(e)
      case Ok(clientNonce) =>
        match DecodeNonce(env.nonce)
        case Err(e) => Err(e)
        case Ok(nonce) =>
          match DecodeCiphertext(env.ciphertext)
          case Err(e) => Err(e)
          case Ok(cipher) =>
            match DiffieHellman(x, gateway, eph)
            case Err(e) => Err(e)
            case Ok(shared) =>
              var t := Transcript(env.version, env.tokenClass, env.requestId, clientNonce, eph, gateway);
              match Decrypt(DeriveKey(shared, t, Request), nonce, AadBytes(t, Request), cipher)
              case Err(e) => Err(e)
              case Ok(padded) => Ok(Trimmed(padded))
  }

  /** The gateway seals a response in the context of a request envelope, which it echoes. */
  method SealResponseAtGateway(x: Curve, gateway: Bytes32, req: Envelope, plaintext: seq<Byte>, nonce: Nonce)
    returns (r: Result<Envelope>)
    ensures r == SealedResponse(x, gateway, req, plaintext, nonce)
  {
    if req.version != VERSION { return Err(UnsupportedVersion); }
    var eph := Decode32(req.ephPub, BadEphKey);
    if eph.Err? { return Err(eph.error); }
    var clientNonce := Decode32(req.clientNonce, BadClientNonce);
    if clientNonce.Err? { return Err(clientNonce.error); }
    var padded := Padded(plaintext, ResponsePlaintextBytes(req.tokenClass));
    if padded.None? { return Err(TooLarge); }
    var shared := DiffieHellman(x, gateway, eph.value);
    if shared.Err? { return Err(shared.error); }
    var t := Transcript(req.version, req.tokenClass, req.requestId, clientNonce.value, eph.value, gateway);
    var salt := FillBindingMaterial(KDF_LABEL, t);
    var info := FillHkdfInfo(req.tokenClass, Response);
    var aad := FillAadBytes(t, Response);
    var sealed := Encrypt(DerivedKey(shared.value, salt, info), nonce, aad, padded.value);
    return Ok(req.(nonce := Some(nonce), ciphertext := Some(sealed)));
  }

  function SealedResponse(x: Curve, gateway: Bytes32, req: Envelope, plaintext: seq<Byte>,
                          nonce: Nonce): Result<Envelope>
  {
    if req.version != VERSION then Err(UnsupportedVersion)
    else match Decode32(req.ephPub, BadEphKey)
    case Err(e) => Err(e)
    case Ok(eph) =>
      match Decode32(req.clientNonce, BadClientNonce)
      case Err(e) => Err(e)
      case Ok(clientNonce) =>
        match Padded(plaintext, ResponsePlaintextBytes(req.tokenClass))
        case None => Err(TooLarge)
        case Some(padded) =>
          match DiffieHellman(x, gateway, eph)
          case Err(e) => Err(e)
          case Ok(shared) =>
            var t := Transcript(req.version, req.tokenClass, req.requestId, clientNonce, eph, gateway);
            Ok(req.(nonce := Some(nonce),
                    ciphertext := Some(Encrypt(DeriveKey(shared, t, Response), nonce, AadBytes(t, Response), padded))))
  }

  /** The client opens a response, after checking that it answers its own request. */
  function OpenResponse(x: Curve, ctx: ClientContext, env: Envelope): Result<seq<Byte>> {
    if env.version != VERSION then Err(UnsupportedVersion)
    else if env.requestId != ctx.requestId then Err(RequestIdMismatch)
    else if env.tokenClass != ctx.tokenClass then Err(ClassMismatch)
    else match Decode32(env.ephPub, BadEphKey)
    case Err(e) => Err(e)
    case Ok(eph) =>
      if eph != ctx.ephPub then Err(UnexpectedEphKey)
      else match Decode32(env.clientNonce, BadClientNonce)
      case Err(e) => Err(e)
      case Ok(clientNonce) =>
        if clientNonce != ctx.clientNonce then Err(ClientNonceMismatch)
        else match DecodeNonce(env.nonce)
        case Err(e) => Err(e)
        case Ok(nonce) =>
          match DecodeCiphertext(env.ciphertext)
          case Err(e) => Err(e)
          case Ok(cipher) =>
            match DiffieHellman(x, ctx.ephPub, ctx.gatewayPub)
            case Err(e) => Err(e)
            case Ok(shared) =>
              var t := ContextTranscript(ctx, env.version);
              match Decrypt(DeriveKey(shared, t, Response), nonce, AadBytes(t, Response), cipher)
              case Err(e) => Err(e)
              case Ok(padded) => Ok(Trimmed(padded))
  }

  // ---------------------------------------------------------------- binding

  /** The ciphertext for a transcript and a direction, seen from either end. */
  function CipherFor(x: Curve, t: Transcript, d: Direction, nonce: Nonce, padded: seq<Byte>): Cipher {
    Sealed(DeriveKey(multiset{x.point(t.ephPub), x.point(t.gatewayPub)}, t, d), nonce, AadBytes(t, d), padded)
  }

  /** A ciphertext belongs to one transcript, one direction, one nonce and one plaintext. */
  lemma CipherBinds(x: Curve, t: Transcript, d: Direction, n: Nonce, p: seq<Byte>, u: Transcript, e: Direction,
                    m: Nonce, q: seq<Byte>)
    ensures CipherFor(x, t, d, n, p) == CipherFor(x, u, e, m, q) <==> t == u && d == e && n == m && p == q
  {
    AadInjective(t, d, u, e);
  }

  /** Keys alone already separate transcripts and directions; they do so without the authenticated
      data, up to the version, which is fixed. */
  lemma KeyBinds(s: Shared, t: Transcript, d: Direction, r: Shared, u: Transcript, e: Direction)
    requires t.version == u.version == VERSION
    ensures DeriveKey(s, t, d) == DeriveKey(r, u, e) <==> s == r && t == u && d == e
  {
    BindingMaterialInjective(KDF_LABEL, t, KDF_LABEL, u);
    HkdfInfoInjective(t.tokenClass, d, u.tokenClass, e);
  }

  /** The transcript an envelope claims, when its fields decode. */
  predicate Claims(env: Envelope, gateway: Bytes32, t: Transcript) {
    && env.version == t.version && env.tokenClass == t.tokenClass && env.requestId == t.requestId
    && env.clientNonce == Some(t.clientNonce) && env.ephPub == Some(t.ephPub) && t.gatewayPub == gateway
  }

  /** The gateway opens an envelope exactly when its ciphertext was made for the transcript it claims,
      with the nonce it carries, in the request direction. */
  lemma GatewayOpensExactly(x: Curve, gateway: Bytes32, env: Envelope, t: Transcript, payload: seq<Byte>)
    requires Claims(env, gateway, t)
    ensures OpenRequestAtGateway(x, gateway, env) == Ok(payload)
       <==> && t.version == VERSION && !x.lowOrder(x.point(t.ephPub)) && env.nonce.Some? && |env.nonce.value| == 12
            && env.ciphertext.Some? && env.ciphertext.value.Sealed?
            && env.ciphertext.value == CipherFor(x, t, Request, env.nonce.value, env.ciphertext.value.plaintext)
            && payload == Trimmed(env.ciphertext.value.plaintext)
  {
    assert multiset{x.point(gateway), x.point(t.ephPub)} == multiset{x.point(t.ephPub), x.point(gateway)};
  }

  /** Nothing else opens: an envelope whose fields do not decode, or of another version, is refused. */
  lemma OpenedClaims(x: Curve, gateway: Bytes32, env: Envelope)
    requires OpenRequestAtGateway(x, gateway, env).Ok?
    ensures exists t :: Claims(env, gateway, t) && t.version == VERSION
  {
    var t := Transcript(env.version, env.tokenClass, env.requestId, env.clientNonce.value, env.ephPub.value, gateway);
    assert Claims(env, gateway, t);
  }

  /** A response is sealed only for an envelope whose fields decode, and echoes them. */
  lemma ResponseEchoes(x: Curve, gateway: Bytes32, req: Envelope, t: Transcript, plaintext: seq<Byte>, nonce: Nonce)
    requires Claims(req, gateway, t)
    ensures var r := SealedResponse(x, gateway, req, plaintext, nonce);
            && (r.Ok? <==> t.version == VERSION && |plaintext| <= ResponsePlaintextBytes(t.tokenClass) &&
                           !x.lowOrder(x.point(t.ephPub)))
            && (r.Ok? ==> Claims(r.value, gateway, t) && r.value.nonce == Some(nonce)
                          && var padded := Padded(plaintext, ResponsePlaintextBytes(t.tokenClass)).value;
                             r.value.ciphertext == Some(CipherFor(x, t, Response, nonce, padded)))
  {
    assert multiset{x.point(gateway), x.point(t.ephPub)} == multiset{x.point(t.ephPub), x.point(gateway)};
  }

  /** The client opens an envelope exactly when it claims the client's own transcript and its ciphertext
      was made for it, in the response direction. */
  lemma ClientOpensExactly(x: Curve, ctx: ClientContext, env: Envelope, payload: seq<Byte>)
    ensures OpenResponse(x, ctx, env) == Ok(payload)
       <==> && Claims(env, ctx.gatewayPub, ContextTranscript(ctx, VERSION)) && !x.lowOrder(x.point(ctx.gatewayPub))
            && env.nonce.Some? && |env.nonce.value| == 12 && env.ciphertext.Some? && env.ciphertext.value.Sealed?
            && env.ciphertext.value
               == CipherFor(x, ContextTranscript(ctx, VERSION), Response, env.nonce.value,
                            env.ciphertext.value.plaintext)
            && payload == Trimmed(env.ciphertext.value.plaintext)
  {
  }

  // ---------------------------------------------------------------- round trips

  /** What the client seals, the gateway opens: the payload comes back exactly when it does not end in
      a zero byte. */
  lemma RequestRoundTrip(x: Curve, gateway: Bytes32, c: TokenClass, id: Uuid, plaintext: seq<Byte>, eph: Bytes32,
                         clientNonce: Bytes32, nonce: Nonce)
    requires !x.lowOrder(x.point(eph)) && |nonce| == 12
    ensures var r := SealedRequest(x, gateway, c, id, plaintext, eph, clientNonce, nonce);
            && (r.Ok? <==> |plaintext| <= RequestPlaintextBytes(c) && !x.lowOrder(x.point(gateway)))
            && (r.Ok? ==> OpenRequestAtGateway(x, gateway, r.value.0) == Ok(Trimmed(plaintext)))
            && (r.Ok? ==> (OpenRequestAtGateway(x, gateway, r.value.0) == Ok(plaintext) <==> !EndsInZero(plaintext)))
  {
    var r := SealedRequest(x, gateway, c, id, plaintext, eph, clientNonce, nonce);
    if r.Ok? {
      PadTrimRoundTrip(plaintext, RequestPlaintextBytes(c));
      TrimmedZeros(plaintext, RequestPlaintextBytes(c) - |plaintext|);
      var t := ContextTranscript(r.value.1, VERSION);
      assert Claims(r.value.0, gateway, t);
      GatewayOpensExactly(x, gateway, r.value.0, t, Trimmed(plaintext));
    }
  }

  /** What the gateway answers to an envelope with the client's transcript, the client opens. */
  lemma AnswerRoundTrip(x: Curve, ctx: ClientContext, req: Envelope, answer: seq<Byte>, nonce: Nonce)
    requires Claims(req, ctx.gatewayPub, ContextTranscript(ctx, VERSION)) && |nonce| == 12
    requires !x.lowOrder(x.point(ctx.ephPub)) && !x.lowOrder(x.point(ctx.gatewayPub))
    ensures var resp := SealedResponse(x, ctx.gatewayPub, req, answer, nonce);
            && (resp.Ok? <==> |answer| <= ResponsePlaintextBytes(ctx.tokenClass))
            && (resp.Ok? ==> OpenResponse(x, ctx, resp.value) == Ok(Trimmed(answer)))
            && (resp.Ok? ==> (OpenResponse(x, ctx, resp.value) == Ok(answer) <==> !EndsInZero(answer)))
  {
    var t := ContextTranscript(ctx, VERSION);
    ResponseEchoes(x, ctx.gatewayPub, req, t, answer, nonce);
    if |answer| <= ResponsePlaintextBytes(ctx.tokenClass) {
      var padded := Padded(answer, ResponsePlaintextBytes(ctx.tokenClass)).value;
      OpensAnswer(x, ctx, SealedResponse(x, ctx.gatewayPub, req, answer, nonce).value, nonce, padded);
      PadTrimRoundTrip(answer, ResponsePlaintextBytes(ctx.tokenClass));
      TrimmedZeros(answer, ResponsePlaintextBytes(ctx.tokenClass) - |answer|);
    }
  }

  lemma OpensAnswer(x: Curve, ctx: ClientContext, env: Envelope, nonce: Nonce, padded: seq<Byte>)
    requires Claims(env, ctx.gatewayPub, ContextTranscript(ctx, VERSION)) && !x.lowOrder(x.point(ctx.gatewayPub))
    requires |nonce| == 12 && env.nonce == Some(nonce)
    requires env.ciphertext == Some(CipherFor(x, ContextTranscript(ctx, VERSION), Response, nonce, padded))
    ensures OpenResponse(x, ctx, env) == Ok(Trimmed(padded))
  {
  }

  lemma SealedRequestClaims(x: Curve, gateway: Bytes32, c: TokenClass, id: Uuid, plaintext: seq<Byte>, eph: Bytes32,
                            clientNonce: Bytes32, nonce: Nonce)
    requires SealedRequest(x, gateway, c, id, plaintext, eph, clientNonce, nonce).Ok?
    ensures var (req, ctx) := SealedRequest(x, gateway, c, id, plaintext, eph, clientNonce, nonce).value;
            && Claims(req, gateway, ContextTranscript(ctx, VERSION)) && !x.lowOrder(x.point(gateway))
            && ctx == ClientContext(eph, gateway, clientNonce, id, c)
  {
  }

  /** A whole exchange: request out, response back, whatever the request payload was. */
  lemma ExchangeRoundTrip(x: Curve, gateway: Bytes32, c: TokenClass, id: Uuid, plaintext: seq<Byte>, eph: Bytes32,
                          clientNonce: Bytes32, nonce: Nonce, answer: seq<Byte>, answerNonce: Nonce)
    requires !x.lowOrder(x.point(eph)) && |answerNonce| == 12
    requires SealedRequest(x, gateway, c, id, plaintext, eph, clientNonce, nonce).Ok?
    ensures var (req, ctx) := SealedRequest(x, gateway, c, id, plaintext, eph, clientNonce, nonce).value;
            var resp := SealedResponse(x, gateway, req, answer, answerNonce);
            && (resp.Ok? <==> |answer| <= ResponsePlaintextBytes(c))
            && (resp.Ok? ==> (OpenResponse(x, ctx, resp.value) == Ok(answer) <==> !EndsInZero(answer)))
  {
    var (req, ctx) := SealedRequest(x, gateway, c, id, plaintext, eph, clientNonce, nonce).value;
    SealedRequestClaims(x, gateway, c, id, plaintext, eph, clientNonce, nonce);
    AnswerRoundTrip(x, ctx, req, answer, answerNonce);
  }

  // ---------------------------------------------------------------- which error

  predicate Has32(field: Option<seq<Byte>>) { field.Some? && |field.value| == 32 }

  predicate Has12(field: Option<seq<Byte>>) { field.Some? && |field.value| == 12 }

  predicate LowOrder(x: Curve, field: Option<seq<Byte>>) { Has32(field) && x.lowOrder(x.point(field.value)) }

  /** What the gateway says of an envelope it does not open: the first thing that is wrong with it, in this
      order. */
  lemma GatewayRefusesExactly(x: Curve, gateway: Bytes32, env: Envelope)
    ensures var r := OpenRequestAtGateway(x, gateway, env);
            if env.version != 2 then r == Err(UnsupportedVersion)
            else if !Has32(env.ephPub) then r == Err(BadEphKey)
            else if !Has32(env.clientNonce) then r == Err(BadClientNonce)
            else if !Has12(env.nonce) then r == Err(BadNonce)
            else if env.ciphertext.None? then r == Err(BadCiphertext)
            else if LowOrder(x, env.ephPub) then r == Err(BadSharedSecret)
            else r.Ok? || r == Err(DecryptFailed)
  {
  }

  /** And what the client says: a response must name its own request before anything is decrypted. */
  lemma ClientRefusesExactly(x: Curve, ctx: ClientContext, env: Envelope)
    ensures var r := OpenResponse(x, ctx, env);
            if env.version != 2 then r == Err(UnsupportedVersion)
            else if env.requestId != ctx.requestId then r == Err(RequestIdMismatch)
            else if env.tokenClass != ctx.tokenClass then r == Err(ClassMismatch)
            else if !Has32(env.ephPub) then r == Err(BadEphKey)
            else if env.ephPub != Some(ctx.ephPub) then r == Err(UnexpectedEphKey)
            else if !Has32(env.clientNonce) then r == Err(BadClientNonce)
            else if env.clientNonce != Some(ctx.clientNonce) then r == Err(ClientNonceMismatch)
            else if !Has12(env.nonce) then r == Err(BadNonce)
            else if env.ciphertext.None? then r == Err(BadCiphertext)
            else if LowOrder(x, Some(ctx.gatewayPub)) then r == Err(BadSharedSecret)
            else r.Ok? || r == Err(DecryptFailed)
  {
  }

  /** Sealing an answer fails on the first of these, and on nothing else. */
  lemma SealingRefusesExactly(x: Curve, gateway: Bytes32, req: Envelope, plaintext: seq<Byte>, nonce: Nonce)
    ensures var r := SealedResponse(x, gateway, req, plaintext, nonce);
            if req.version != 2 then r == Err(UnsupportedVersion)
            else if !Has32(req.ephPub) then r == Err(BadEphKey)
            else if !Has32(req.clientNonce) then r == Err(BadClientNonce)
            else if |plaintext| > ResponsePlaintextBytes(req.tokenClass) then r == Err(TooLarge)
            else if LowOrder(x, req.ephPub) then r == Err(BadSharedSecret)
            else r.Ok?
  {
  }
}
