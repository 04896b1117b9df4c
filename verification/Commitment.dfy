/** The bytes an inference authorization commits to. */
module Commitment {
  import opened Bytes
  import Utf8Reader
  import opened Json
  import opened Canonical
  import opened Chat
  import opened Token

  lemma {:induction false} Utf8Length(s: string)
    ensures |Utf8(s)| == ByteLen(s)
  {
    if s != [] { Utf8Length(s[1..]); }
  }

  // ---------------------------------------------------------------- requests

  /** A 32-bit float: a number of type `f32`, or what a number too large for it becomes. */
  datatype Temperature = Finite(token: string) | Infinite(negative: bool)

  /** Numbers are carried as their JSON tokens. */
  datatype InferenceRequest = InferenceRequest(
    requestId: string,
    model: string,
    messages: seq<ChatMessage>,
    maxTokens: Option<string>,
    temperature: Option<Temperature>,
    stream: Option<bool>,
    tokenClass: TokenClass,
    ticket: Ticket,
    providerOptions: seq<Entry>)

  function ClassName(c: TokenClass): string {
    match c
    case C256 => "c256"
    case C512 => "c512"
    case C1024 => "c1024"
    case C2048 => "c2048"
    case C4096 => "c4096"
  }

  function Optional(token: Option<string>): Json {
    if token.Some? then Num(token.value) else Null
  }

  /** JSON has no infinity: `json!` writes null for it. */
  function Sent(t: Option<Temperature>): Option<string> {
    if t.Some? && t.value.Finite? then Some(t.value.token) else None
  }

  function MessageJson(m: ChatMessage): Json {
    Obj([Entry("role", Str(m.role)), Entry("content", Str(m.content))] + m.extra)
  }

  function MessagesJson(ms: seq<ChatMessage>): (r: seq<Json>)
    ensures |r| == |ms|
  {
    if ms == [] then [] else [MessageJson(ms[0])] + MessagesJson(ms[1..])
  }

  /** The committed projection: everything but the ticket. */
  function Project(r: InferenceRequest): Json {
    Obj([
      Entry("request_id", Str(r.requestId)),
      Entry("model", Str(r.model)),
      Entry("messages", Arr(MessagesJson(r.messages))),
      Entry("max_tokens", Optional(r.maxTokens)),
      Entry("temperature", Optional(Sent(r.temperature))),
      Entry("stream", if r.stream.Some? then Bool(r.stream.value) else Null),
      Entry("token_class", Str(ClassName(r.tokenClass))),
      Entry("provider_options", Obj(r.providerOptions))
    ])
  }

  /** The label, with its terminating zero, that separates this use of the hash from others. */
  const LABEL: seq<Byte> := ByteString("ACTIVECHAIN-ZEROK-INFERENCE-AUTHORIZATION-V1\0")

  /** What is fed to SHAKE-256: label, length, text. */
  function Preimage(r: InferenceRequest): seq<Byte> {
    Framed(LABEL, Utf8(Print(Canon(Project(r)))))
  }

  function Framed(name: seq<Byte>, text: seq<Byte>): seq<Byte> { name + ToBigEndian(|text|, 8) + text }

  lemma FramedInjective(name: seq<Byte>, a: seq<Byte>, b: seq<Byte>)
    requires Framed(name, a) == Framed(name, b)
    ensures a == b
  {
    var n := |name| + 8;
    assert a == Framed(name, a)[n..] && b == Framed(name, b)[n..];
  }

  // ---------------------------------------------------------------- what the preimage binds

  predicate WellFormedMessage(m: ChatMessage) {
    ValidEntries(m.extra) && DistinctKeys(m.extra) && forall e :: e in m.extra ==> e.key != "role" && e.key != "content"
  }

  /** What deserialization yields: numbers are numbers, and map keys are distinct. */
  predicate WellFormed(r: InferenceRequest) {
    && (forall m :: m in r.messages ==> WellFormedMessage(m))
    && (r.maxTokens.Some? ==> NumToken(r.maxTokens.value))
    && (Sent(r.temperature).Some? ==> NumToken(Sent(r.temperature).value))
    && ValidEntries(r.providerOptions) && DistinctKeys(r.providerOptions)
  }

  predicate SameMessage(m: ChatMessage, n: ChatMessage) {
    m.role == n.role && m.content == n.content && Members(m.extra) == Members(n.extra)
  }

  /** Equal in every field but the ticket, maps compared as maps, an infinite temperature like none. */
  predicate SameBillable(q: InferenceRequest, r: InferenceRequest) {
    && q.requestId == r.requestId && q.model == r.model
    && |q.messages| == |r.messages| && (forall i :: 0 <= i < |q.messages| ==> SameMessage(q.messages[i], r.messages[i]))
    && q.maxTokens == r.maxTokens && Sent(q.temperature) == Sent(r.temperature) && q.stream == r.stream
    && q.tokenClass == r.tokenClass && Members(q.providerOptions) == Members(r.providerOptions)
  }

  lemma MessageValid(m: ChatMessage)
    requires WellFormedMessage(m)
    ensures Valid(MessageJson(m))
  {
    var es := [Entry("role", Str(m.role)), Entry("content", Str(m.content))] + m.extra;
    var tail := [Entry("content", Str(m.content))] + m.extra;
    assert es[1..] == tail && tail[1..] == m.extra;
    assert Members(tail) == Members(tail[1..])["content" := VStr(m.content)];
    assert ValidEntries(tail) <==> ValidEntries(tail[1..]);
    forall i, j | 0 <= i < j < |es| ensures es[i].key != es[j].key {
      if j >= 2 { assert es[j] == m.extra[j - 2]; }
      if i >= 2 { assert es[i] == m.extra[i - 2]; }
    }
  }

  lemma {:induction false} MessagesValid(ms: seq<ChatMessage>)
    requires forall m :: m in ms ==> WellFormedMessage(m)
    ensures ValidItems(MessagesJson(ms))
  {
    if ms != [] {
      MessageValid(ms[0]);
      MessagesValid(ms[1..]);
    }
  }

  lemma ProjectValid(r: InferenceRequest)
    requires WellFormed(r)
    ensures Valid(Project(r))
  {
    ProjectKeys(r);
    ProjectValuesValid(r);
    var j := Project(r);
    assert j.Obj? && DistinctKeys(j.entries) && ValidEntries(j.entries);
  }

  lemma ProjectValuesValid(r: InferenceRequest)
    requires WellFormed(r)
    ensures ValidEntries(Project(r).entries)
  {
    MessagesValid(r.messages);
    ValidEntriesFromAll(Project(r).entries);
  }

  lemma {:induction false} MembersAvoid(es: seq<Entry>, key: string)
    requires forall e :: e in es ==> e.key != key
    ensures key !in Members(es)
  {
    if es != [] { MembersAvoid(es[1..], key); }
  }

  lemma MessageMeaning(m: ChatMessage)
    ensures Members(MessageJson(m).entries) == Members(m.extra)["content" := VStr(m.content)]["role" := VStr(m.role)]
  {
    var es := MessageJson(m).entries;
    var tail := [Entry("content", Str(m.content))] + m.extra;
    assert es[1..] == tail && tail[1..] == m.extra;
    assert Members(tail) == Members(tail[1..])["content" := VStr(m.content)];
    assert ValidEntries(tail) <==> ValidEntries(tail[1..]);
  }

  lemma SameMessageMeaning(m: ChatMessage, n: ChatMessage)
    requires WellFormedMessage(m) && WellFormedMessage(n)
    ensures Meaning(MessageJson(m)) == Meaning(MessageJson(n)) <==> SameMessage(m, n)
  {
    MessageMeaning(m);
    MessageMeaning(n);
    var a, b := Members(m.extra), Members(n.extra);
    MembersAvoid(m.extra, "role");
    MembersAvoid(m.extra, "content");
    MembersAvoid(n.extra, "role");
    MembersAvoid(n.extra, "content");
    var x, y := Members(MessageJson(m).entries), Members(MessageJson(n).entries);
    if x == y {
      assert "role" in x && "content" in x;
      assert x["role"] == y["role"] && x["content"] == y["content"];
      assert a == x - {"role", "content"} && b == y - {"role", "content"};
    }
  }

  lemma {:induction false} SameMessagesMeaning(ms: seq<ChatMessage>, ns: seq<ChatMessage>)
    requires (forall m :: m in ms ==> WellFormedMessage(m)) && (forall n :: n in ns ==> WellFormedMessage(n))
    ensures Meanings(MessagesJson(ms)) == Meanings(MessagesJson(ns)) <==>
            |ms| == |ns| && forall i :: 0 <= i < |ms| ==> SameMessage(ms[i], ns[i])
  {
    var a, b := Meanings(MessagesJson(ms)), Meanings(MessagesJson(ns));
    assert |a| == |ms| && |b| == |ns|;
    if ms != [] && ns != [] {
      SameMessageMeaning(ms[0], ns[0]);
      SameMessagesMeaning(ms[1..], ns[1..]);
      assert MessagesJson(ms)[1..] == MessagesJson(ms[1..]) && MessagesJson(ns)[1..] == MessagesJson(ns[1..]);
      assert a == [Meaning(MessageJson(ms[0]))] + Meanings(MessagesJson(ms[1..]));
      assert b == [Meaning(MessageJson(ns[0]))] + Meanings(MessagesJson(ns[1..]));
      assert a == b <==> a[0] == b[0] && a[1..] == b[1..];
      assert forall i :: 0 < i < |ms| ==> ms[i] == ms[1..][i - 1];
      assert forall i :: 0 < i < |ns| ==> ns[i] == ns[1..][i - 1];
    }
  }

  function FieldMeanings(es: seq<Entry>): seq<Value> {
    seq(|es|, i requires 0 <= i < |es| => Meaning(es[i].value))
  }

  /** With the same keys in the same places, member maps agree when the values agree place by place. */
  lemma SameFields(es: seq<Entry>, fs: seq<Entry>)
    requires DistinctKeys(es) && DistinctKeys(fs) && |es| == |fs|
    requires forall i :: 0 <= i < |es| ==> es[i].key == fs[i].key
    ensures Members(es) == Members(fs) <==> FieldMeanings(es) == FieldMeanings(fs)
  {
    if Members(es) == Members(fs) {
      forall i | 0 <= i < |es| ensures Meaning(es[i].value) == Meaning(fs[i].value) {
        MemberAt(es, i);
        MemberAt(fs, i);
      }
    } else if FieldMeanings(es) == FieldMeanings(fs) {
      forall i | 0 <= i < |es| ensures Alike(es[i], fs[i]) {
        assert FieldMeanings(es)[i] == FieldMeanings(fs)[i];
      }
      MembersEqual(es, fs);
    }
  }

  lemma ClassNameInjective(c: TokenClass, d: TokenClass)
    requires ClassName(c) == ClassName(d)
    ensures c == d
  {
    assert ClassName(c)[1] == ClassName(d)[1];
  }

  lemma OptionalMeaning(a: Option<string>, b: Option<string>)
    ensures Meaning(Optional(a)) == Meaning(Optional(b)) <==> a == b
  {
  }

  lemma ClassMeaning(c: TokenClass, d: TokenClass)
    ensures Meaning(Str(ClassName(c))) == Meaning(Str(ClassName(d))) <==> c == d
  {
    if ClassName(c) == ClassName(d) { ClassNameInjective(c, d); }
  }

  predicate AreFields(r: InferenceRequest, a: seq<Value>) {
    && |a| == 8
    && a[0] == VStr(r.requestId)
    && a[1] == VStr(r.model)
    && a[2] == VArr(Meanings(MessagesJson(r.messages)))
    && a[3] == Meaning(Optional(r.maxTokens))
    && a[4] == Meaning(Optional(Sent(r.temperature)))
    && a[5] == (if r.stream.Some? then VBool(r.stream.value) else VNull)
    && a[6] == VStr(ClassName(r.tokenClass))
    && a[7] == VObj(Members(r.providerOptions))
  }

  /** The projected fields, one by one. */
  lemma FieldsBind(q: InferenceRequest, r: InferenceRequest, a: seq<Value>, b: seq<Value>)
    requires AreFields(q, a) && AreFields(r, b)
    requires Meanings(MessagesJson(q.messages)) == Meanings(MessagesJson(r.messages)) <==>
             |q.messages| == |r.messages| && forall i :: 0 <= i < |q.messages| ==>
               SameMessage(q.messages[i], r.messages[i])
    ensures SameBillable(q, r) <==> a == b
  {
    OptionalMeaning(q.maxTokens, r.maxTokens);
    OptionalMeaning(Sent(q.temperature), Sent(r.temperature));
    ClassMeaning(q.tokenClass, r.tokenClass);
    assert a == b <==> a[0] == b[0] && a[1] == b[1] && a[2] == b[2] && a[3] == b[3] &&
                       a[4] == b[4] && a[5] == b[5] && a[6] == b[6] && a[7] == b[7];
  }

  lemma ProjectFields(r: InferenceRequest)
    ensures AreFields(r, FieldMeanings(Project(r).entries))
  {
  }

  lemma MembersBind(q: InferenceRequest, r: InferenceRequest, es: seq<Entry>, fs: seq<Entry>)
    requires IsProjection(q, es) && IsProjection(r, fs) && WellFormed(q) && WellFormed(r)
    ensures Members(es) == Members(fs) <==> SameBillable(q, r)
  {
    assert forall i :: 0 <= i < |es| ==> es[i].key == Keys(es)[i] == Keys(fs)[i] == fs[i].key;
    SameFields(es, fs);
    SameMessagesMeaning(q.messages, r.messages);
    FieldsBind(q, r, FieldMeanings(es), FieldMeanings(fs));
  }

  function Keys(es: seq<Entry>): (ks: seq<string>)
    ensures |ks| == |es| && forall i :: 0 <= i < |es| ==> ks[i] == es[i].key
  {
    seq(|es|, i requires 0 <= i < |es| => es[i].key)
  }

  const FIELDS: seq<string> :=
    ["request_id", "model", "messages", "max_tokens", "temperature", "stream", "token_class", "provider_options"]

  /** The eight fields of the projection, under their names. */
  predicate IsProjection(r: InferenceRequest, es: seq<Entry>) {
    DistinctKeys(es) && Keys(es) == FIELDS && AreFields(r, FieldMeanings(es))
  }

  lemma ProjectKeys(r: InferenceRequest)
    ensures DistinctKeys(Project(r).entries) && Keys(Project(r).entries) == FIELDS
  {
  }

  lemma ProjectEntries(r: InferenceRequest) returns (es: seq<Entry>)
    ensures IsProjection(r, es) && Meaning(Project(r)) == VObj(Members(es))
  {
    es := Project(r).entries;
    ProjectKeys(r);
    ProjectFields(r);
  }

  lemma ProjectionBinds(q: InferenceRequest, r: InferenceRequest)
    requires WellFormed(q) && WellFormed(r)
    ensures Meaning(Project(q)) == Meaning(Project(r)) <==> SameBillable(q, r)
  {
    var es := ProjectEntries(q);
    var fs := ProjectEntries(r);
    MembersBind(q, r, es, fs);
  }

  /** The theorem: two requests commit to the same bytes exactly when they agree on everything that
      is billed or sent upstream. Map order does not matter, the ticket does not matter, an infinite
      temperature counts as none, and nothing else can be changed without changing the bytes. */
  lemma CommitmentBindsRequest(q: InferenceRequest, r: InferenceRequest)
    requires WellFormed(q) && WellFormed(r)
    ensures Preimage(q) == Preimage(r) <==> SameBillable(q, r)
  {
    ProjectValid(q);
    ProjectValid(r);
    var a, b := Print(Canon(Project(q))), Print(Canon(Project(r)));
    if Preimage(q) == Preimage(r) {
      FramedInjective(LABEL, Utf8(a), Utf8(b));
      Utf8Reader.Utf8Injective(a, b);
    }
    CanonicalTextIsFaithful(Project(q), Project(r));
    ProjectionBinds(q, r);
  }

  /** The one field that is not bound as it is: another temperature gives other bytes, unless neither
      of the two is a finite number. */
  lemma TemperatureIsBoundIff(r: InferenceRequest, a: Option<Temperature>, b: Option<Temperature>)
    requires WellFormed(r.(temperature := a)) && WellFormed(r.(temperature := b))
    ensures Preimage(r.(temperature := a)) == Preimage(r.(temperature := b)) <==>
            a == b || (Sent(a).None? && Sent(b).None?)
  {
    CommitmentBindsRequest(r.(temperature := a), r.(temperature := b));
  }

  /** `authorization_commitment` up to the hash: project, canonicalise in place, print, frame. */
  method AuthorizationPreimage(r: InferenceRequest) returns (preimage: seq<Byte>)
    ensures preimage == Preimage(r)
  {
    var value := Project(r);
    value := CanonicalizeJson(value);
    var encoded := Utf8(Print(value));
    preimage := LABEL;
    preimage := preimage + ToBigEndian(|encoded|, 8);
    preimage := preimage + encoded;
  }
}
