/** Clients, a gateway and a relay that may drop, repeat, alter and mix envelopes. */
module Relay {
  import opened Bytes
  import opened Token
  import opened Transcript
  import opened Envelope

  /** `honest` are the ephemeral keys only honest clients hold the secrets of. */
  datatype World = World(x: Curve, gateway: Bytes32, honest: Bytes32 -> bool)

  datatype Sent = Sent(ctx: ClientContext, payload: seq<Byte>, nonce: Nonce)

  datatype Served = Served(request: Envelope, transcript: Transcript, payload: seq<Byte>, answer: seq<Byte>,
                           nonce: Nonce)

  /** `wire`: every ciphertext the relay has seen or made. */
  datatype Net = Net(sent: seq<Sent>, served: seq<Served>, wire: set<Cipher>)

  datatype Step =
    | ClientSeals(gatewayPub: Bytes32, tokenClass: TokenClass, requestId: Uuid, payload: seq<Byte>, ephPub: Bytes32,
                  clientNonce: Bytes32, nonce: Nonce)
    | RelayMakes(cipher: Cipher)
    | GatewayServes(request: Envelope, answer: seq<Byte>, nonce: Nonce)

  /** Made with a secret shared by an honest client and the gateway, which the relay does not have. */
  ghost predicate Secret(w: World, c: Cipher) {
    c.Sealed? && exists e: Bytes32 :: w.honest(e) && c.key.shared == SharedWith(w, e)
  }

  function SharedWith(w: World, e: Bytes32): Shared { multiset{w.x.point(e), w.x.point(w.gateway)} }

  /** The envelope on offer uses a ciphertext from the wire; its other fields are anything. */
  predicate OnWire(n: Net, env: Envelope) { env.ciphertext.Some? && env.ciphertext.value in n.wire }

  ghost predicate Enabled(w: World, n: Net, s: Step) {
    match s
    case ClientSeals(gw, c, id, payload, eph, cn, nonce) =>
      && w.honest(eph) && SealedRequest(w.x, gw, c, id, payload, eph, cn, nonce).Ok?
      && forall r :: r in n.sent ==> w.x.point(r.ctx.ephPub) != w.x.point(eph)
    case RelayMakes(c) => !Secret(w, c)
    case GatewayServes(req, answer, nonce) =>
      && OnWire(n, req) && OpenRequestAtGateway(w.x, w.gateway, req).Ok?
         && SealedResponse(w.x, w.gateway, req, answer, nonce).Ok?
  }

  ghost function Apply(w: World, n: Net, s: Step): Net
    requires Enabled(w, n, s)
  {
    match s
    case ClientSeals(gw, c, id, payload, eph, cn, nonce) =>
      var (env, ctx) := SealedRequest(w.x, gw, c, id, payload, eph, cn, nonce).value;
      Net(n.sent + [Sent(ctx, payload, nonce)], n.served, n.wire + {env.ciphertext.value})
    case RelayMakes(c) => n.(wire := n.wire + {c})
    case GatewayServes(req, answer, nonce) =>
      var env := SealedResponse(w.x, w.gateway, req, answer, nonce).value;
      var t := Transcript(req.version, req.tokenClass, req.requestId, req.clientNonce.value, req.ephPub.value,
                          w.gateway);
      var payload := OpenRequestAtGateway(w.x, w.gateway, req).value;
      Net(n.sent, n.served + [Served(req, t, payload, answer, nonce)], n.wire + {env.ciphertext.value})
  }

  /** The state after some steps, when each of them could be taken. */
  ghost function After(w: World, steps: seq<Step>): Option<Net>
    decreases |steps|
  {
    if steps == [] then Some(Net([], [], {}))
    else
      var last := steps[|steps| - 1];
      match After(w, steps[..|steps| - 1])
      case None => None
      case Some(m) => if Enabled(w, m, last) then Some(Apply(w, m, last)) else None
  }

  ghost predicate Reachable(w: World, n: Net, steps: seq<Step>) { After(w, steps) == Some(n) }

  // ---------------------------------------------------------------- what every step keeps

  /** A message with its padding, when it fits. */
  function Filled(data: seq<Byte>, len: nat): seq<Byte> { if |data| <= len then Padded(data, len).value else [] }

  function SentTranscript(r: Sent): Transcript { ContextTranscript(r.ctx, VERSION) }

  function SentCipher(w: World, r: Sent): Cipher {
    CipherFor(w.x, SentTranscript(r), Request, r.nonce, Filled(r.payload, RequestPlaintextBytes(r.ctx.tokenClass)))
  }

  function ServedCipher(w: World, r: Served): Cipher {
    CipherFor(w.x, r.transcript, Response, r.nonce, Filled(r.answer, ResponsePlaintextBytes(r.transcript.tokenClass)))
  }

  predicate SentOk(w: World, r: Sent)
  {
    w.honest(r.ctx.ephPub) && |r.payload| <= RequestPlaintextBytes(r.ctx.tokenClass)
  }

  /** An answer was given to a request the gateway opened, in that request's transcript. */
  predicate ServedOk(w: World, n: Net, r: Served) {
    && OnWire(n, r.request) && Claims(r.request, w.gateway, r.transcript)
    && OpenRequestAtGateway(w.x, w.gateway, r.request) == Ok(r.payload)
    && r.transcript.version == VERSION && |r.answer| <= ResponsePlaintextBytes(r.transcript.tokenClass)
  }

  predicate Accounted(w: World, n: Net, c: Cipher) {
    (exists i :: 0 <= i < |n.sent| && c == SentCipher(w, n.sent[i]))
    || (exists j :: 0 <= j < |n.served| && c == ServedCipher(w, n.served[j]))
  }

  /** No two honest contexts share an ephemeral key, in any encoding. */
  predicate FreshKeys(w: World, n: Net) {
    forall i, j :: 0 <= i < j < |n.sent| ==> w.x.point(n.sent[i].ctx.ephPub) != w.x.point(n.sent[j].ctx.ephPub)
  }

  predicate AllSentOk(w: World, n: Net) { forall i :: 0 <= i < |n.sent| ==> SentOk(w, n.sent[i]) }

  predicate AllServedOk(w: World, n: Net) { forall j :: 0 <= j < |n.served| ==> ServedOk(w, n, n.served[j]) }

  ghost predicate AllAccounted(w: World, n: Net) { forall c :: c in n.wire && Secret(w, c) ==> Accounted(w, n, c) }

  ghost predicate Good(w: World, n: Net) {
    AllSentOk(w, n) && AllServedOk(w, n) && FreshKeys(w, n) && AllAccounted(w, n)
  }

  lemma AccountedStays(w: World, n: Net, m: Net, c: Cipher)
    requires Accounted(w, n, c) && n.sent <= m.sent && n.served <= m.served
    ensures Accounted(w, m, c)
  {
    if i :| 0 <= i < |n.sent| && c == SentCipher(w, n.sent[i]) {
      assert c == SentCipher(w, m.sent[i]);
    } else {
      var j :| 0 <= j < |n.served| && c == ServedCipher(w, n.served[j]);
      assert c == ServedCipher(w, m.served[j]);
    }
  }

  lemma SealedIsSentCipher(w: World, gw: Bytes32, c: TokenClass, id: Uuid, payload: seq<Byte>, eph: Bytes32,
                           cn: Bytes32, nonce: Nonce)
    requires SealedRequest(w.x, gw, c, id, payload, eph, cn, nonce).Ok?
    ensures var (env, ctx) := SealedRequest(w.x, gw, c, id, payload, eph, cn, nonce).value;
            && env.ciphertext == Some(SentCipher(w, Sent(ctx, payload, nonce)))
            && ctx == ClientContext(eph, gw, cn, id, c) && |payload| <= RequestPlaintextBytes(c)
  {
  }

  lemma ResponseIsServedCipher(w: World, req: Envelope, answer: seq<Byte>, nonce: Nonce, payload: seq<Byte>)
    requires OpenRequestAtGateway(w.x, w.gateway, req) == Ok(payload)
             && SealedResponse(w.x, w.gateway, req, answer, nonce).Ok?
    ensures req.clientNonce.Some? && |req.clientNonce.value| == 32 && req.ephPub.Some? && |req.ephPub.value| == 32
    ensures var t := Transcript(req.version, req.tokenClass, req.requestId, req.clientNonce.value, req.ephPub.value,
                                w.gateway);
            && Claims(req, w.gateway, t) && t.version == VERSION && |answer| <= ResponsePlaintextBytes(t.tokenClass)
            && SealedResponse(w.x, w.gateway, req, answer, nonce).value.ciphertext
               == Some(ServedCipher(w, Served(req, t, payload, answer, nonce)))
  {
    var eph := req.ephPub.value;
    assert multiset{w.x.point(w.gateway), w.x.point(eph)} == multiset{w.x.point(eph), w.x.point(w.gateway)};
  }

  lemma AddSent(w: World, n: Net, r: Sent)
    requires Good(w, n) && SentOk(w, r) && forall q :: q in n.sent ==>
             w.x.point(q.ctx.ephPub) != w.x.point(r.ctx.ephPub)
    ensures Good(w, Net(n.sent + [r], n.served, n.wire + {SentCipher(w, r)}))
  {
    var m := Net(n.sent + [r], n.served, n.wire + {SentCipher(w, r)});
    AddSentSent(w, n, m, r);
    ServedStay(w, n, m);
    AddSentFresh(w, n, m, r);
    AddSentAccounted(w, n, m, r);
  }

  lemma AddSentSent(w: World, n: Net, m: Net, r: Sent)
    requires AllSentOk(w, n) && SentOk(w, r) && m.sent == n.sent + [r]
    ensures AllSentOk(w, m)
  {
  }

  /** Answers given stay answers while the wire grows. */
  lemma ServedStay(w: World, n: Net, m: Net)
    requires AllServedOk(w, n) && m.served == n.served && n.wire <= m.wire
    ensures AllServedOk(w, m)
  {
    forall j | 0 <= j < |m.served| ensures ServedOk(w, m, m.served[j]) { assert ServedOk(w, n, n.served[j]); }
  }

  lemma AddSentFresh(w: World, n: Net, m: Net, r: Sent)
    requires FreshKeys(w, n) && m.sent == n.sent + [r]
    requires forall q :: q in n.sent ==> w.x.point(q.ctx.ephPub) != w.x.point(r.ctx.ephPub)
    ensures FreshKeys(w, m)
  {
  }

  lemma AddSentAccounted(w: World, n: Net, m: Net, r: Sent)
    requires AllAccounted(w, n) && m == Net(n.sent + [r], n.served, n.wire + {SentCipher(w, r)})
    ensures AllAccounted(w, m)
  {
    forall c | c in m.wire && Secret(w, c) ensures Accounted(w, m, c) {
      if c in n.wire { AccountedStays(w, n, m, c); } else { assert c == SentCipher(w, m.sent[|n.sent|]); }
    }
  }

  lemma AddMade(w: World, n: Net, made: Cipher)
    requires Good(w, n) && !Secret(w, made)
    ensures Good(w, n.(wire := n.wire + {made}))
  {
    var m := n.(wire := n.wire + {made});
    forall c | c in m.wire && Secret(w, c) ensures Accounted(w, m, c) { AccountedStays(w, n, m, c); }
    ServedStay(w, n, m);
  }

  lemma AddServed(w: World, n: Net, r: Served)
    requires Good(w, n) && ServedOk(w, n, r)
    ensures Good(w, Net(n.sent, n.served + [r], n.wire + {ServedCipher(w, r)}))
  {
    var m := Net(n.sent, n.served + [r], n.wire + {ServedCipher(w, r)});
    AddServedServed(w, n, m, r);
    AddServedAccounted(w, n, m, r);
  }

  lemma AddServedServed(w: World, n: Net, m: Net, r: Served)
    requires AllServedOk(w, n) && ServedOk(w, n, r) && m.served == n.served + [r] && n.wire <= m.wire
    ensures AllServedOk(w, m)
  {
    forall j | 0 <= j < |m.served| ensures ServedOk(w, m, m.served[j]) {
      if j < |n.served| { assert ServedOk(w, n, n.served[j]); }
    }
  }

  lemma AddServedAccounted(w: World, n: Net, m: Net, r: Served)
    requires AllAccounted(w, n) && m == Net(n.sent, n.served + [r], n.wire + {ServedCipher(w, r)})
    ensures AllAccounted(w, m)
  {
    forall c | c in m.wire && Secret(w, c) ensures Accounted(w, m, c) {
      if c in n.wire { AccountedStays(w, n, m, c); } else { assert c == ServedCipher(w, m.served[|n.served|]); }
    }
  }

  /** Every step keeps the account of secret ciphertexts: each is a client's request or an answer to
      a request the gateway opened. */
  lemma StepKeepsGood(w: World, n: Net, s: Step)
    requires Good(w, n) && Enabled(w, n, s)
    ensures Good(w, Apply(w, n, s))
  {
    match s {
      case ClientSeals(gw, c, id, payload, eph, cn, nonce) =>
        SealedIsSentCipher(w, gw, c, id, payload, eph, cn, nonce);
        AddSent(w, n, Sent(ClientContext(eph, gw, cn, id, c), payload, nonce));
      case RelayMakes(c) =>
        AddMade(w, n, c);
      case GatewayServes(req, answer, nonce) =>
        var payload := OpenRequestAtGateway(w.x, w.gateway, req).value;
        ResponseIsServedCipher(w, req, answer, nonce, payload);
        var t := Transcript(req.version, req.tokenClass, req.requestId, req.clientNonce.value, req.ephPub.value,
                            w.gateway);
        AddServed(w, n, Served(req, t, payload, answer, nonce));
    }
  }

  lemma {:induction false} ReachableIsGood(w: World, n: Net, steps: seq<Step>)
    requires Reachable(w, n, steps)
    ensures Good(w, n)
    decreases |steps|
  {
    if steps != [] {
      var before := steps[..|steps| - 1];
      var m := After(w, before).value;
      ReachableIsGood(w, m, before);
      StepKeepsGood(w, m, steps[|steps| - 1]);
    }
  }

  // ---------------------------------------------------------------- what is delivered

  lemma FilledTrims(data: seq<Byte>, len: nat)
    requires |data| <= len
    ensures Trimmed(Filled(data, len)) == Trimmed(data)
  {
    TrimmedZeros(data, len - |data|);
  }

  /** Sent `i` is the request with this transcript and, up to trailing zeros, this payload. */
  predicate IsRequest(n: Net, i: int, t: Transcript, payload: seq<Byte>) {
    0 <= i < |n.sent| && SentTranscript(n.sent[i]) == t && payload == Trimmed(n.sent[i].payload)
  }

  /** Served `j` answered sent `i`, in its transcript and with its payload, by this ciphertext. */
  predicate IsAnswer(w: World, n: Net, i: nat, j: int, c: Cipher, answer: seq<Byte>)
    requires i < |n.sent|
  {
    && 0 <= j < |n.served| && IsRequest(n, i, n.served[j].transcript, n.served[j].payload)
    && answer == Trimmed(n.served[j].answer) && c == ServedCipher(w, n.served[j])
  }

  /** What the gateway opens under an honest client's key is what that client sealed, for the same
      version, class, id, nonce, ephemeral key and gateway. */
  lemma GatewayOpensWhatWasSent(w: World, n: Net, steps: seq<Step>, env: Envelope, payload: seq<Byte>, t: Transcript)
    requires Reachable(w, n, steps) && OnWire(n, env) && Claims(env, w.gateway, t) && w.honest(t.ephPub)
    requires OpenRequestAtGateway(w.x, w.gateway, env) == Ok(payload)
    ensures exists i :: IsRequest(n, i, t, payload)
  {
    ReachableIsGood(w, n, steps);
    GatewayOpensExactly(w.x, w.gateway, env, t, payload);
    OpenedWasSent(w, n, t, env.ciphertext.value, env.nonce.value);
    var i :| 0 <= i < |n.sent| && SentTranscript(n.sent[i]) == t && env.ciphertext.value == SentCipher(w, n.sent[i]);
    assert SentOk(w, n.sent[i]);
    FilledTrims(n.sent[i].payload, RequestPlaintextBytes(n.sent[i].ctx.tokenClass));
    assert IsRequest(n, i, t, payload);
  }

  /** A request ciphertext for an honest transcript comes from a client, for that transcript. */
  lemma OpenedWasSent(w: World, n: Net, t: Transcript, c: Cipher, nonce: Nonce)
    requires Good(w, n) && c in n.wire && w.honest(t.ephPub) && t.gatewayPub == w.gateway
    requires c.Sealed? && c == CipherFor(w.x, t, Request, nonce, c.plaintext)
    ensures exists i :: 0 <= i < |n.sent| && SentTranscript(n.sent[i]) == t && c == SentCipher(w, n.sent[i])
                        && SentOk(w, n.sent[i])
  {
    assert c.key.shared == SharedWith(w, t.ephPub);
    assert Secret(w, c) && Accounted(w, n, c);
    if j :| 0 <= j < |n.served| && c == ServedCipher(w, n.served[j]) {
      var r := n.served[j];
      CipherBinds(w.x, t, Request, nonce, c.plaintext,
                  r.transcript, Response, r.nonce, Filled(r.answer, ResponsePlaintextBytes(r.transcript.tokenClass)));
    }
    var i :| 0 <= i < |n.sent| && c == SentCipher(w, n.sent[i]);
    var r := n.sent[i];
    CipherBinds(w.x, t, Request, nonce, c.plaintext,
                SentTranscript(r), Request, r.nonce, Filled(r.payload, RequestPlaintextBytes(r.ctx.tokenClass)));
  }

  /** A response that a client accepts is one the gateway gave: for the client's own version, class, id,
      nonce, ephemeral key and gateway, to the client's own payload, and carrying exactly the answer that
      was sealed. However the relay mixes envelopes. */
  lemma AcceptedIsTheAnswer(w: World, n: Net, steps: seq<Step>, i: nat, env: Envelope, answer: seq<Byte>)
    requires Reachable(w, n, steps) && OnWire(n, env) && i < |n.sent| && n.sent[i].ctx.gatewayPub == w.gateway
    requires OpenResponse(w.x, n.sent[i].ctx, env) == Ok(answer)
    ensures exists j :: IsAnswer(w, n, i, j, env.ciphertext.value, answer)
  {
    ReachableIsGood(w, n, steps);
    var t := SentTranscript(n.sent[i]);
    ClientOpensExactly(w.x, n.sent[i].ctx, env, answer);
    assert SentOk(w, n.sent[i]);
    AcceptedIsServed(w, n, t, env.ciphertext.value, env.nonce.value);
    var j :| 0 <= j < |n.served| && n.served[j].transcript == t && env.ciphertext.value == ServedCipher(w, n.served[j]);
    var r := n.served[j];
    assert ServedOk(w, n, r);
    FilledTrims(r.answer, ResponsePlaintextBytes(r.transcript.tokenClass));
    GatewayOpensWhatWasSent(w, n, steps, r.request, r.payload, r.transcript);
    var k :| IsRequest(n, k, r.transcript, r.payload);
    OwnRequest(w, n, i, k);
    assert IsAnswer(w, n, i, j, env.ciphertext.value, answer);
  }

  /** A response ciphertext for an honest transcript comes from the gateway, for that transcript. */
  lemma AcceptedIsServed(w: World, n: Net, t: Transcript, c: Cipher, nonce: Nonce)
    requires Good(w, n) && c in n.wire && w.honest(t.ephPub) && t.gatewayPub == w.gateway
    requires c.Sealed? && c == CipherFor(w.x, t, Response, nonce, c.plaintext)
    ensures exists j :: 0 <= j < |n.served| && n.served[j].transcript == t && c == ServedCipher(w, n.served[j])
  {
    assert c.key.shared == SharedWith(w, t.ephPub);
    assert Secret(w, c) && Accounted(w, n, c);
    if k :| 0 <= k < |n.sent| && c == SentCipher(w, n.sent[k]) {
      var r := n.sent[k];
      CipherBinds(w.x, t, Response, nonce, c.plaintext,
                  SentTranscript(r), Request, r.nonce, Filled(r.payload, RequestPlaintextBytes(r.ctx.tokenClass)));
    }
    var j :| 0 <= j < |n.served| && c == ServedCipher(w, n.served[j]);
    var r := n.served[j];
    CipherBinds(w.x, t, Response, nonce, c.plaintext,
                r.transcript, Response, r.nonce, Filled(r.answer, ResponsePlaintextBytes(r.transcript.tokenClass)));
  }

  /** Ephemeral keys tell contexts apart. */
  lemma OwnRequest(w: World, n: Net, i: nat, k: nat)
    requires FreshKeys(w, n) && i < |n.sent| && k < |n.sent| && SentTranscript(n.sent[i]) == SentTranscript(n.sent[k])
    ensures i == k
  {
    assert n.sent[i].ctx.ephPub == n.sent[k].ctx.ephPub;
  }
}
