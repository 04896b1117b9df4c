/** The order of keys, in characters and in bytes, and what it makes of a request. */
module CanonicalOrder {
  import opened Bytes
  import opened Utf8Reader
  import opened Json
  import opened JsonReader
  import opened Canonical
  import opened Token
  import opened Commitment
  import Words

  // ---------------------------------------------------------------- the order

  /** The texts agree before position `n`; there the first ends, or has the smaller character. */
  predicate SmallerAt(a: string, b: string, n: nat) {
    n <= |a| && n < |b| && a[..n] == b[..n] && (n == |a| || a[n] < b[n])
  }

  lemma {:induction false} LessHasPosition(a: string, b: string) returns (n: nat)
    requires Less(a, b)
    ensures SmallerAt(a, b, n)
  {
    if a == [] || a[0] < b[0] {
      n := 0;
    } else {
      var m := LessHasPosition(a[1..], b[1..]);
      n := m + 1;
      assert a[..n] == [a[0]] + a[1..][..m] && b[..n] == [b[0]] + b[1..][..m];
    }
  }

  lemma {:induction false} PositionMeansLess(a: string, b: string, n: nat)
    requires SmallerAt(a, b, n)
    ensures Less(a, b)
    decreases n
  {
    if n > 0 {
      assert a[..n][0] == b[..n][0] && a[1..][..n - 1] == a[..n][1..] && b[1..][..n - 1] == b[..n][1..];
      PositionMeansLess(a[1..], b[1..], n - 1);
    }
  }

  ghost predicate Smaller(a: string, b: string) { exists n: nat :: SmallerAt(a, b, n) }

  lemma LessIff(a: string, b: string)
    ensures Less(a, b) <==> Smaller(a, b)
  {
    if Less(a, b) { var n := LessHasPosition(a, b); }
    if Smaller(a, b) {
      var n: nat :| SmallerAt(a, b, n);
      PositionMeansLess(a, b, n);
    }
  }

  // ---------------------------------------------------------------- in bytes

  predicate BytesSmallerAt(x: seq<Byte>, y: seq<Byte>, n: nat) {
    n <= |x| && n < |y| && x[..n] == y[..n] && (n == |x| || x[n] < y[n])
  }

  lemma Digits(p: nat, q: nat)
    requires p <= q
    ensures p / 64 <= q / 64 && (p / 64 == q / 64 && p < q ==> p % 64 < q % 64)
  {
  }

  /** Groups of six bits, highest first: the first that differs decides. */
  lemma GroupsDecide(p: nat, q: nat)
    requires p < q
    ensures p / 262144 <= q / 262144
    ensures p / 262144 == q / 262144 ==> p / 4096 % 64 <= q / 4096 % 64
    ensures p / 4096 <= q / 4096
    ensures p / 4096 == q / 4096 ==> p / 64 % 64 <= q / 64 % 64
    ensures p / 64 <= q / 64
    ensures p / 64 == q / 64 ==> p % 64 < q % 64
  {
    SixBitGroups(p);
    SixBitGroups(q);
    Nested(p, 4096);
    Nested(q, 4096);
    Nested(p, 64);
    Nested(q, 64);
    Digits(p, q);
    Digits(p / 64, q / 64);
    Digits(p / 4096, q / 4096);
  }

  lemma LeadByte(c: char, d: char)
    requires c < d && Width(c) < Width(d)
    ensures EncodeChar(c)[0] < EncodeChar(d)[0]
  {
  }

  lemma EqualGroups(p: nat, q: nat)
    ensures p / 262144 == q / 262144 && p / 4096 % 64 == q / 4096 % 64 ==> p / 4096 == q / 4096
    ensures p / 4096 == q / 4096 && p / 64 % 64 == q / 64 % 64 ==> p / 64 == q / 64
  {
    Nested(p, 4096);
    Nested(q, 4096);
    Nested(p, 64);
    Nested(q, 64);
  }

  /** A smaller character has the smaller encoding. */
  lemma EncodingsDiffer(c: char, d: char) returns (k: nat)
    requires c < d
    ensures k < Width(c) && k < Width(d) && EncodeChar(c)[..k] == EncodeChar(d)[..k]
            && EncodeChar(c)[k] < EncodeChar(d)[k]
  {
    var x, y := EncodeChar(c), EncodeChar(d);
    if Width(c) < Width(d) {
      LeadByte(c, d);
      k := 0;
    } else {
      GroupsDecide(c as int, d as int);
      EqualGroups(c as int, d as int);
      k := FirstDifference(x, y, c, d);
    }
  }

  lemma FirstDifference(x: seq<Byte>, y: seq<Byte>, c: char, d: char) returns (k: nat)
    requires c < d && Width(c) == Width(d) && x == EncodeChar(c) && y == EncodeChar(d)
    requires var (p, q) := (c as int, d as int);
             && p / 262144 <= q / 262144 && p / 4096 <= q / 4096 && p / 64 <= q / 64
             && (p / 262144 == q / 262144 ==> p / 4096 % 64 <= q / 4096 % 64)
             && (p / 4096 == q / 4096 ==> p / 64 % 64 <= q / 64 % 64)
             && (p / 64 == q / 64 ==> p % 64 < q % 64)
             && (p / 262144 == q / 262144 && p / 4096 % 64 == q / 4096 % 64 ==> p / 4096 == q / 4096)
             && (p / 4096 == q / 4096 && p / 64 % 64 == q / 64 % 64 ==> p / 64 == q / 64)
    ensures k < |x| && k < |y| && x[..k] == y[..k] && x[k] < y[k]
  {
    if x[0] != y[0] {
      k := 0;
    } else if x[1] != y[1] {
      k := 1;
    } else if x[2] != y[2] {
      k := 2;
    } else {
      k := 3;
    }
    SameStart(x, y, k);
  }

  lemma SameStart(x: seq<Byte>, y: seq<Byte>, k: nat)
    requires k <= |x| && k <= |y| && k <= 3 && forall i :: 0 <= i < k ==> x[i] == y[i]
    ensures x[..k] == y[..k]
  {
  }

  lemma {:induction false} Utf8Concat(a: string, b: string)
    ensures Utf8(a + b) == Utf8(a) + Utf8(b)
  {
    if a == [] {
      assert a + b == b;
    } else {
      Utf8Concat(a[1..], b);
      assert (a + b)[0] == a[0] && (a + b)[1..] == a[1..] + b;
      Assoc(EncodeChar(a[0]), Utf8(a[1..]), Utf8(b));
    }
  }

  lemma Utf8First(a: string)
    requires a != ""
    ensures Utf8(a) == EncodeChar(a[0]) + Utf8(a[1..])
  {
  }

  lemma Utf8Around(a: string, n: nat)
    requires n < |a|
    ensures Utf8(a) == Utf8(a[..n]) + (EncodeChar(a[n]) + Utf8(a[n + 1..]))
  {
    var b := a[n..];
    assert a == a[..n] + b && b[0] == a[n] && b[1..] == a[n + 1..];
    Utf8Concat(a[..n], b);
    Utf8First(b);
  }

  lemma CommonStart(p: seq<Byte>, x: seq<Byte>, r: seq<Byte>, y: seq<Byte>, s: seq<Byte>, k: nat)
    requires k < |x| && k < |y| && x[..k] == y[..k] && x[k] < y[k]
    ensures BytesSmallerAt(p + (x + r), p + (y + s), |p| + k)
  {
    var u, v := p + (x + r), p + (y + s);
    assert u[..|p| + k] == p + x[..k] && v[..|p| + k] == p + y[..k];
  }

  /** The smaller text has the smaller bytes. */
  lemma SmallerBytes(a: string, b: string, n: nat) returns (m: nat)
    requires SmallerAt(a, b, n)
    ensures BytesSmallerAt(Utf8(a), Utf8(b), m)
  {
    Utf8Around(b, n);
    if n == |a| {
      assert a[..n] == a;
      m := |Utf8(a)|;
      assert |EncodeChar(b[n])| >= 1;
    } else {
      Utf8Around(a, n);
      var k := EncodingsDiffer(a[n], b[n]);
      CommonStart(Utf8(a[..n]), EncodeChar(a[n]), Utf8(a[n + 1..]), EncodeChar(b[n]), Utf8(b[n + 1..]), k);
      m := |Utf8(a[..n])| + k;
    }
  }

  lemma SameThere(x: seq<Byte>, y: seq<Byte>, n: nat, m: nat)
    requires m < n <= |x| && n <= |y| && x[..n] == y[..n]
    ensures x[m] == y[m]
  {
    assert x[..n][m] == x[m] && y[..n][m] == y[m];
  }

  lemma OneWay(x: seq<Byte>, y: seq<Byte>, m: nat, n: nat)
    requires BytesSmallerAt(x, y, m)
    ensures !BytesSmallerAt(y, x, n)
  {
    if n < m { SameThere(x, y, m, n); }
    if m < n <= |x| && n <= |y| && y[..n] == x[..n] { SameThere(y, x, n, m); }
  }

  ghost predicate BytesSmaller(x: seq<Byte>, y: seq<Byte>) { exists m: nat :: BytesSmallerAt(x, y, m) }

  lemma LessBytes(a: string, b: string)
    requires Less(a, b)
    ensures BytesSmaller(Utf8(a), Utf8(b)) && !BytesSmaller(Utf8(b), Utf8(a))
  {
    var n := LessHasPosition(a, b);
    var m := SmallerBytes(a, b, n);
    forall k: nat ensures !BytesSmallerAt(Utf8(b), Utf8(a), k) { OneWay(Utf8(a), Utf8(b), m, k); }
  }

  lemma NotSmallerThanItself(x: seq<Byte>)
    ensures !BytesSmaller(x, x)
  {
    forall k: nat ensures !BytesSmallerAt(x, x, k) {
    }
  }

  /** The order of keys is the order of their UTF-8 bytes. */
  lemma ByteOrder(a: string, b: string)
    ensures Less(a, b) <==> BytesSmaller(Utf8(a), Utf8(b))
  {
    LessTotal(a, b);
    if Less(a, b) {
      LessBytes(a, b);
    } else if Less(b, a) {
      LessBytes(b, a);
    } else {
      NotSmallerThanItself(Utf8(a));
    }
  }

  // ---------------------------------------------------------------- canonical values are in order

  /** In every object at every depth, each key is smaller than all that follow, in characters and in bytes. */
  ghost predicate InOrder(v: Json)
    decreases v, 1
  {
    match v
    case Arr(items) => ItemsInOrder(items)
    case Obj(entries) => Ascending(entries) && EntriesInOrder(entries)
    case _ => true
  }

  ghost predicate ItemsInOrder(items: seq<Json>)
    decreases items, 0
  {
    items == [] || (InOrder(items[0]) && ItemsInOrder(items[1..]))
  }

  ghost predicate EntriesInOrder(entries: seq<Entry>)
    decreases entries, 0
  {
    entries == [] || (InOrder(entries[0].value) && EntriesInOrder(entries[1..]))
  }

  ghost predicate Ascending(entries: seq<Entry>) {
    forall i, j :: 0 <= i < j < |entries| ==>
      Smaller(entries[i].key, entries[j].key) && BytesSmaller(Utf8(entries[i].key), Utf8(entries[j].key))
  }

  lemma SortedIsAscending(es: seq<Entry>)
    ensures StrictlySorted(es) <==> Ascending(es)
  {
    forall i, j | 0 <= i < j < |es|
      ensures Less(es[i].key, es[j].key) <==>
              Smaller(es[i].key, es[j].key) && BytesSmaller(Utf8(es[i].key), Utf8(es[j].key))
    {
      ByteOrder(es[i].key, es[j].key);
      LessIff(es[i].key, es[j].key);
    }
  }

  lemma {:induction false} EntriesFromAll(es: seq<Entry>)
    requires forall i :: 0 <= i < |es| ==> InOrder(es[i].value)
    ensures EntriesInOrder(es)
  {
    if es != [] { EntriesFromAll(es[1..]); }
  }

  lemma {:induction false} EntryInOrderAt(es: seq<Entry>, i: nat)
    requires EntriesInOrder(es) && i < |es|
    ensures InOrder(es[i].value)
  {
    if i > 0 { EntryInOrderAt(es[1..], i - 1); }
  }

  /** The theorem: a canonical value is in order throughout. */
  lemma {:induction false} CanonInOrder(v: Json)
    requires Valid(v)
    ensures InOrder(Canon(v))
    decreases v, 1
  {
    match v {
      case Arr(items) => ItemsCanonInOrder(items);
      case Obj(entries) =>
        EntriesCanonInOrder(entries);
        CanonEntriesDistinct(entries);
        SortSorted(CanonEntries(entries));
        SortedIsAscending(SortEntries(CanonEntries(entries)));
        SortedKeepsOrder(CanonEntries(entries));
      case _ =>
    }
  }

  lemma SortedKeepsOrder(es: seq<Entry>)
    requires EntriesInOrder(es)
    ensures EntriesInOrder(SortEntries(es))
  {
    var fs := SortEntries(es);
    SortContents(es);
    forall i | 0 <= i < |fs| ensures InOrder(fs[i].value) {
      SameElements(es, fs, fs[i]);
      var j :| 0 <= j < |es| && es[j] == fs[i];
      EntryInOrderAt(es, j);
    }
    EntriesFromAll(fs);
  }

  lemma {:induction false} ItemsCanonInOrder(items: seq<Json>)
    requires ValidItems(items)
    ensures ItemsInOrder(CanonItems(items))
    decreases items, 0
  {
    if items != [] {
      CanonInOrder(items[0]);
      ItemsCanonInOrder(items[1..]);
    }
  }

  lemma {:induction false} EntriesCanonInOrder(entries: seq<Entry>)
    requires ValidEntries(entries)
    ensures EntriesInOrder(CanonEntries(entries))
    decreases entries, 0
  {
    if entries != [] {
      CanonInOrder(entries[0].value);
      EntriesCanonInOrder(entries[1..]);
    }
  }

  // ---------------------------------------------------------------- the committed request

  lemma {:induction false} ChainAscends(es: seq<Entry>)
    requires forall i :: 0 <= i < |es| - 1 ==> Less(es[i].key, es[i + 1].key)
    ensures StrictlySorted(es)
  {
    forall i, j | 0 <= i < j < |es| ensures Less(es[i].key, es[j].key) { ChainLess(es, i, j); }
  }

  lemma {:induction false} ChainLess(es: seq<Entry>, i: nat, j: nat)
    requires i < j < |es| && forall k :: 0 <= k < |es| - 1 ==> Less(es[k].key, es[k + 1].key)
    ensures Less(es[i].key, es[j].key)
    decreases j - i
  {
    if i + 1 < j {
      ChainLess(es, i + 1, j);
      LessTransitive(es[i].key, es[i + 1].key, es[j].key);
    }
  }

  /** What the commitment hashes, member by member. */
  function Committed(r: InferenceRequest): seq<Entry> {
    [
      Entry("max_tokens", if r.maxTokens.Some? then Num(r.maxTokens.value) else Null),
      Entry("messages", Arr(CanonItems(MessagesJson(r.messages)))),
      Entry("model", Str(r.model)),
      Entry("provider_options", Canon(Obj(r.providerOptions))),
      Entry("request_id", Str(r.requestId)),
      Entry("stream", if r.stream.Some? then Bool(r.stream.value) else Null),
      Entry("temperature", if r.temperature.Some? && r.temperature.value.Finite? then Num(r.temperature.value.token)
                           else Null),
      Entry("token_class", Str(ClassName(r.tokenClass)))
    ]
  }

  lemma NamesAscend()
    ensures Less("max_tokens", "messages") && Less("messages", "model") && Less("model", "provider_options")
    ensures Less("provider_options", "request_id") && Less("request_id", "stream") && Less("stream", "temperature")
    ensures Less("temperature", "token_class")
  {
    PositionMeansLess("max_tokens", "messages", 1);
    PositionMeansLess("messages", "model", 1);
    PositionMeansLess("model", "provider_options", 0);
    PositionMeansLess("provider_options", "request_id", 0);
    PositionMeansLess("request_id", "stream", 0);
    PositionMeansLess("stream", "temperature", 0);
    PositionMeansLess("temperature", "token_class", 1);
  }

  lemma CommittedSorted(r: InferenceRequest)
    ensures StrictlySorted(Committed(r))
  {
    NamesAscend();
    ChainAscends(Committed(r));
  }

  lemma SortedIs(es: seq<Entry>, fs: seq<Entry>)
    requires DistinctKeys(es) && StrictlySorted(fs) && forall e :: e in es <==> e in fs
    ensures SortEntries(es) == fs
  {
    SortSorted(es);
    SortContents(es);
    forall e ensures e in SortEntries(es) <==> e in fs { SameElements(es, SortEntries(es), e); }
    SortedUnique(SortEntries(es), fs);
  }

  /** The canonical request: eight members under these names in this order, the ticket not among them. */
  lemma CanonicalRequest(r: InferenceRequest)
    ensures Canon(Project(r)) == Obj(Committed(r))
  {
    var es := Project(r).entries;
    ProjectKeys(r);
    CanonEntriesDistinct(es);
    CommittedSorted(r);
    CanonProjected(r);
    SortedIs(CanonEntries(es), Committed(r));
  }

  lemma CanonProjected(r: InferenceRequest)
    ensures forall e :: e in CanonEntries(Project(r).entries) <==> e in Committed(r)
  {
    var es, c := Project(r).entries, Committed(r);
    var cs := CanonEntries(es);
    forall i | 0 <= i < 8 ensures cs[i] == Entry(es[i].key, Canon(es[i].value)) { CanonEntryAt(es, i); }
    assert cs[0] == c[4] && cs[1] == c[2] && cs[2] == c[1] && cs[3] == c[0];
    assert cs[4] == c[6] && cs[5] == c[5] && cs[6] == c[7] && cs[7] == c[3];
    Shuffled(cs, c);
  }

  lemma Shuffled(a: seq<Entry>, b: seq<Entry>)
    requires |a| == |b| == 8 && a[0] == b[4] && a[1] == b[2] && a[2] == b[1] && a[3] == b[0]
    requires a[4] == b[6] && a[5] == b[5] && a[6] == b[7] && a[7] == b[3]
    ensures forall e :: e in a <==> e in b
  {
  }

  lemma ThreeDigits(s: string)
    requires |s| == 3
    ensures Words.Numeral(s) == 100 * (s[0] as int - '0' as int) + 10 * (s[1] as int - '0' as int)
                                + (s[2] as int - '0' as int)
  {
    assert s[..2][..1] == s[..1] && s[..1][..0] == [];
    assert Words.Numeral(s[..1]) == s[0] as int - '0' as int;
  }

  lemma FourDigits(s: string)
    requires |s| == 4
    ensures Words.Numeral(s) == 1000 * (s[0] as int - '0' as int) + 100 * (s[1] as int - '0' as int)
                                + 10 * (s[2] as int - '0' as int) + (s[3] as int - '0' as int)
  {
    ThreeDigits(s[..3]);
  }

  /** A class is named after its tokens. */
  lemma ClassNames(c: TokenClass)
    ensures ClassName(c)[0] == 'c' && Words.Numeral(ClassName(c)[1..]) == MaxCompletionTokens(c)
  {
    var digits := ClassName(c)[1..];
    if |digits| == 3 { ThreeDigits(digits); } else { FourDigits(digits); }
  }

  /** The committed text, read as JSON, is the canonical request. */
  lemma CommittedTextReads(r: InferenceRequest)
    requires WellFormed(r)
    ensures ReadValue(Print(Obj(Committed(r)))) == Got(Obj(Committed(r)), "")
  {
    ProjectValid(r);
    CanonValid(Project(r));
    CanonicalRequest(r);
    TextReads(Obj(Committed(r)));
  }

  // ---------------------------------------------------------------- what is hashed

  /** The label with its zero, eight bytes that say how long the text is, and the text. */
  lemma PreimageLayout(r: InferenceRequest)
    requires |Utf8(Print(Obj(Committed(r))))| < 0x1_0000_0000_0000_0000
    ensures var (bytes, text, n) := (Preimage(r), Utf8(Print(Obj(Committed(r)))), |LABEL|);
            && |bytes| == n + 8 + |text| && bytes[..n] == LABEL
            && FromBigEndian(bytes[n..n + 8]) == |text| && bytes[n + 8..] == text
  {
    var text, n := Utf8(Print(Obj(Committed(r)))), |LABEL|;
    CanonicalRequest(r);
    U64FitsEightBytes(|text|);
    BigEndianRoundTrip(|text|, 8);
    FramedParts(LABEL, text);
  }

  lemma FramedParts(name: seq<Byte>, text: seq<Byte>)
    ensures var (f, n) := (Framed(name, text), |name|);
            |f| == n + 8 + |text| && f[..n] == name && f[n..n + 8] == ToBigEndian(|text|, 8) && f[n + 8..] == text
  {
    ThreeParts(name, ToBigEndian(|text|, 8), text);
  }

  lemma ThreeParts(a: seq<Byte>, b: seq<Byte>, c: seq<Byte>)
    ensures var t := a + b + c; t[..|a|] == a && t[|a|..|a| + |b|] == b && t[|a| + |b|..] == c
  {
  }

  /** The label ends in a zero byte. */
  lemma LabelEndsInZero()
    ensures |LABEL| == 45 && LABEL[44] == 0
  {
  }
}
