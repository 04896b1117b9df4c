/** The live recall index: built document by document, searched through its posting lists. */
module LocalIndex {
  import opened Bytes
  import opened MemoryIndex
  import opened Chat

  datatype MemoryItem = MemoryItem(id: string, createdAtMs: int, text: string, tags: seq<string>)

  function Decimal(n: nat): string {
    (if n < 10 then "" else Decimal(n / 10)) + ["0123456789"[n % 10]]
  }

  function MemoryDoc(item: MemoryItem): Doc {
    Doc(Memory, item.id, item.createdAtMs, None, None, item.text, item.tags)
  }

  function MessageDoc(i: nat, msg: ChatMessage): Doc {
    Doc(Message, "msg:" + Decimal(i), 0, Some(msg.role), Some(i), msg.content, [])
  }

  function MemoryDocs(memory: seq<MemoryItem>): (r: seq<Doc>)
    ensures |r| == |memory| && forall i :: 0 <= i < |memory| ==> r[i] == MemoryDoc(memory[i])
  {
    seq(|memory|, i requires 0 <= i < |memory| => MemoryDoc(memory[i]))
  }

  /** One document per message from index `start` on. */
  function MessageDocs(messages: seq<ChatMessage>, start: nat): (r: seq<Doc>)
    requires start <= |messages|
    ensures |r| == |messages| - start
    ensures forall i :: 0 <= i < |r| ==> r[i] == MessageDoc(start + i, messages[start + i])
  {
    seq(|messages| - start, i requires 0 <= i < |messages| - start => MessageDoc(start + i, messages[start + i]))
  }

  /** The first message a rebuild indexes. */
  function IndexStart(n: nat, indexMessages: bool, maxMessages: nat): (start: nat)
    ensures start <= n
  {
    if indexMessages then SaturatingSub(n, maxMessages) else n
  }

  function Rebuilt(memory: seq<MemoryItem>, messages: seq<ChatMessage>, indexMessages: bool, maxMessages: nat): seq<Doc>
  {
    MemoryDocs(memory) + MessageDocs(messages, IndexStart(|messages|, indexMessages, maxMessages))
  }

  lemma NextTerm(terms: seq<string>, k: nat)
    requires k <= |terms|
    ensures if k < |terms| then terms[..k + 1] == terms[..k] + [terms[k]] else terms[..k] == terms
  {
  }

  lemma NextDoc(docs: seq<Doc>, i: nat)
    requires i < |docs|
    ensures docs[..i + 1] == docs[..i] + [docs[i]]
  {
  }

  lemma AppendedAfter(a: seq<Doc>, b: seq<Doc>, d: Doc)
    ensures a + b + [d] == a + (b + [d])
  {
  }

  datatype SearchResult = SearchResult(score: real, doc: Doc)

  /** A scored document before sorting; `id` is its position. */
  datatype Hit = Hit(score: real, id: nat)

  /** The kind filter and the message cutoff of a search. */
  datatype Filter = Filter(kind: Option<DocKind>, cutoff: Option<nat>)

  predicate Passes(f: Filter, doc: Doc) {
    && (f.kind.Some? ==> doc.kind == f.kind.value)
    && (f.cutoff.Some? && doc.kind.Message? && doc.msgIndex.Some? ==> doc.msgIndex.value < f.cutoff.value)
  }

  // ---------------------------------------------------------------- sorting by descending score

  function InsertHit(h: Hit, hs: seq<Hit>): seq<Hit> {
    if hs != [] && hs[0].score > h.score then [hs[0]] + InsertHit(h, hs[1..]) else [h] + hs
  }

  function SortHits(hs: seq<Hit>): seq<Hit> {
    if hs == [] then [] else InsertHit(hs[0], SortHits(hs[1..]))
  }

  predicate Descending(hs: seq<Hit>) {
    forall i, j :: 0 <= i < j < |hs| ==> hs[i].score >= hs[j].score
  }

  lemma {:induction false} InsertHitSame(h: Hit, hs: seq<Hit>)
    ensures multiset(InsertHit(h, hs)) == multiset(hs) + multiset{h}
  {
    if hs != [] && hs[0].score > h.score {
      InsertHitSame(h, hs[1..]);
      assert hs == [hs[0]] + hs[1..];
    }
  }

  lemma {:induction false} InsertHitBelow(h: Hit, hs: seq<Hit>, top: real)
    requires h.score <= top && forall i :: 0 <= i < |hs| ==> hs[i].score <= top
    ensures forall i :: 0 <= i < |InsertHit(h, hs)| ==> InsertHit(h, hs)[i].score <= top
  {
    if hs != [] && hs[0].score > h.score { InsertHitBelow(h, hs[1..], top); }
  }

  lemma {:induction false} InsertHitSorted(h: Hit, hs: seq<Hit>)
    requires Descending(hs)
    ensures Descending(InsertHit(h, hs)) && multiset(InsertHit(h, hs)) == multiset(hs) + multiset{h}
  {
    InsertHitSame(h, hs);
    if hs != [] && hs[0].score > h.score {
      InsertHitSorted(h, hs[1..]);
      InsertHitBelow(h, hs[1..], hs[0].score);
    }
  }

  lemma {:induction false} SortHitsSorted(hs: seq<Hit>)
    ensures Descending(SortHits(hs)) && multiset(SortHits(hs)) == multiset(hs)
  {
    if hs != [] {
      SortHitsSorted(hs[1..]);
      InsertHitSorted(hs[0], SortHits(hs[1..]));
      assert hs == [hs[0]] + hs[1..];
    }
  }

  // ---------------------------------------------------------------- what a search must return

  /** The documents a search may return. */
  predicate Eligible(lex: Lexicon, terms: seq<string>, f: Filter, doc: Doc) {
    Passes(f, doc) && SharesTerm(lex, terms, doc)
  }

  function Eligibles(lex: Lexicon, docs: seq<Doc>, terms: seq<string>, f: Filter): (r: seq<bool>)
    ensures |r| == |docs| && forall d :: 0 <= d < |docs| ==> r[d] == Eligible(lex, terms, f, docs[d])
  {
    seq(|docs|, d requires 0 <= d < |docs| => Eligible(lex, terms, f, docs[d]))
  }

  function Scores(ln: real -> real, lex: Lexicon, docs: seq<Doc>, terms: seq<string>): (r: seq<real>)
    ensures |r| == |docs|
  {
    seq(|docs|, d requires 0 <= d < |docs| => Score(ln, lex, docs, terms, docs[d]))
  }

  /** `hits` is a best-first selection of at most `limit` eligible documents, each once and with its
      score, and nobody better was left out. */
  ghost predicate IsTop(score: seq<real>, ok: seq<bool>, limit: nat, hits: seq<Hit>)
    requires |score| == |ok|
  {
    && |hits| <= limit
    && (forall i :: 0 <= i < |hits| ==> IsHit(score, ok, hits[i]))
    && (forall i, j :: 0 <= i < j < |hits| ==> hits[i].id != hits[j].id)
    && Descending(hits)
    && (forall d :: 0 <= d < |ok| && ok[d] ==> Listed(hits, d) || Beaten(hits, limit, score[d]))
  }

  predicate IsHit(score: seq<real>, ok: seq<bool>, h: Hit)
    requires |score| == |ok|
  {
    h.id < |ok| && ok[h.id] && h.score == score[h.id]
  }

  predicate Listed(hits: seq<Hit>, d: nat) { exists i :: 0 <= i < |hits| && hits[i].id == d }

  /** The selection is full, and everybody in it scores at least `x`. */
  predicate Beaten(hits: seq<Hit>, limit: nat, x: real) {
    |hits| == limit && forall i :: 0 <= i < |hits| ==> hits[i].score >= x
  }

  /** The score table of a search in progress. */
  ghost predicate Accumulated(score: seq<real>, ok: seq<bool>, table: map<nat, real>)
    requires |score| == |ok|
  {
    && (forall d: nat :: d in table <==> d < |ok| && ok[d])
    && (forall d: nat :: d in table ==> table[d] == score[d])
  }

  function OrZero(table: map<nat, real>, d: nat): real {
    if d in table then table[d] else 0.0
  }

  lemma SharesTermSnoc(lex: Lexicon, terms: seq<string>, t: string, doc: Doc)
    ensures SharesTerm(lex, terms + [t], doc) <==> SharesTerm(lex, terms, doc) || Tf(lex, doc, t) > 0
  {
    var ts := terms + [t];
    if SharesTerm(lex, terms, doc) {
      var i :| 0 <= i < |terms| && Tf(lex, doc, terms[i]) > 0;
      assert ts[i] == terms[i];
    }
    if Tf(lex, doc, t) > 0 { assert ts[|terms|] == t; }
  }

  lemma {:induction false} UnsharedScoresZero(ln: real -> real, lex: Lexicon, docs: seq<Doc>, terms: seq<string>,
                                              doc: Doc)
    requires !SharesTerm(lex, terms, doc)
    ensures Score(ln, lex, docs, terms, doc) == 0.0
  {
    if terms != [] {
      var last := |terms| - 1;
      assert terms == terms[..last] + [terms[last]];
      SharesTermSnoc(lex, terms[..last], terms[last], doc);
      UnsharedScoresZero(ln, lex, docs, terms[..last], doc);
    }
  }

  /** Whether the term reaches document `d`, and what it adds to its score. */
  ghost predicate TermAt(ln: real -> real, lex: Lexicon, docs: seq<Doc>, t: string, f: Filter, reached: seq<bool>,
                         add: seq<real>, d: nat)
    requires |reached| == |add| == |docs| && d < |docs|
  {
    reached[d] == (Passes(f, docs[d]) && Tf(lex, docs[d], t) > 0) && add[d] == TermScore(ln, lex, docs, t, docs[d])
  }

  ghost predicate TermTable(ln: real -> real, lex: Lexicon, docs: seq<Doc>, t: string, f: Filter, reached: seq<bool>,
                            add: seq<real>)
  {
    && |reached| == |add| == |docs|
    && forall d: nat :: d < |docs| ==> TermAt(ln, lex, docs, t, f, reached, add, d)
  }

  /** One more term, seen document by document. */
  lemma ScoreStep(ln: real -> real, lex: Lexicon, docs: seq<Doc>, terms: seq<string>, t: string, f: Filter,
                  reached: seq<bool>, add: seq<real>, d: nat)
    requires TermTable(ln, lex, docs, t, f, reached, add) && d < |docs|
    ensures Eligibles(lex, docs, terms + [t], f)[d] == (Eligibles(lex, docs, terms, f)[d] || reached[d])
    ensures Scores(ln, lex, docs, terms + [t])[d] == Scores(ln, lex, docs, terms)[d] + add[d]
    ensures Passes(f, docs[d]) && !Eligibles(lex, docs, terms, f)[d] ==> Scores(ln, lex, docs, terms)[d] == 0.0
    ensures Passes(f, docs[d]) && !reached[d] ==> add[d] == 0.0
  {
    assert TermAt(ln, lex, docs, t, f, reached, add, d);
    SharesTermSnoc(lex, terms, t, docs[d]);
    assert (terms + [t])[..|terms|] == terms;
    if !SharesTerm(lex, terms, docs[d]) { UnsharedScoresZero(ln, lex, docs, terms, docs[d]); }
  }

  /** A cut of a descending list keeps the best. */
  lemma CutKeepsBest(s: seq<Hit>, limit: nat, hits: seq<Hit>, j: nat)
    requires Descending(s) && hits == (if |s| <= limit then s else s[..limit]) && j < |s|
    ensures Listed(hits, s[j].id) || Beaten(hits, limit, s[j].score)
  {
    if j < |hits| { assert hits[j].id == s[j].id; }
  }

  lemma Permuted(all: seq<Hit>, s: seq<Hit>)
    requires multiset(s) == multiset(all)
    ensures forall h :: h in s <==> h in all
  {
    forall h ensures h in s <==> h in all {
      assert h in s <==> h in multiset(s);
      assert h in all <==> h in multiset(all);
    }
  }

  /** Sorting all hits and cutting off the rest leaves a best-first selection. */
  lemma TruncateIsTop(score: seq<real>, ok: seq<bool>, limit: nat, all: seq<Hit>, s: seq<Hit>, hits: seq<Hit>)
    requires |score| == |ok|
    requires forall i :: 0 <= i < |all| ==> IsHit(score, ok, all[i])
    requires forall i, j :: 0 <= i < j < |all| ==> all[i].id != all[j].id
    requires forall d :: 0 <= d < |ok| && ok[d] ==> Listed(all, d)
    requires Descending(s) && multiset(s) == multiset(all)
    requires hits == if |s| <= limit then s else s[..limit]
    ensures IsTop(score, ok, limit, hits)
  {
    Permuted(all, s);
    SortedDistinct(all, s);
    forall i | 0 <= i < |hits| ensures IsHit(score, ok, hits[i]) {
      assert s[i] in all;
    }
    forall d | 0 <= d < |ok| && ok[d] ensures Listed(hits, d) || Beaten(hits, limit, score[d]) {
      var i :| 0 <= i < |all| && all[i].id == d;
      assert all[i] in s;
      var j :| 0 <= j < |s| && s[j] == all[i];
      CutKeepsBest(s, limit, hits, j);
    }
  }

  /** A permutation of hits with distinct ids has distinct ids. */
  lemma SortedDistinct(all: seq<Hit>, s: seq<Hit>)
    requires multiset(s) == multiset(all) && forall i, j :: 0 <= i < j < |all| ==> all[i].id != all[j].id
    ensures forall i, j :: 0 <= i < j < |s| ==> s[i].id != s[j].id
  {
    forall i, j | 0 <= i < j < |s| ensures s[i].id != s[j].id {
      if s[i].id == s[j].id {
        assert s[i] in multiset(s) && s[j] in multiset(s);
        var a :| 0 <= a < |all| && all[a] == s[i];
        var b :| 0 <= b < |all| && all[b] == s[j];
        assert s[i] == s[j];
        TwiceInMultiset(s, i, j);
        OnceInMultiset(all, a);
      }
    }
  }

  lemma TwiceInMultiset(s: seq<Hit>, i: nat, j: nat)
    requires i < j < |s| && s[i] == s[j]
    ensures multiset(s)[s[i]] >= 2
  {
    assert s == s[..i] + [s[i]] + s[i + 1..j] + [s[j]] + s[j + 1..];
  }

  lemma OnceInMultiset(all: seq<Hit>, a: nat)
    requires a < |all| && forall i, j :: 0 <= i < j < |all| ==> all[i].id != all[j].id
    ensures multiset(all)[all[a]] == 1
  {
    assert all == all[..a] + [all[a]] + all[a + 1..];
    assert all[a] !in all[..a] && all[a] !in all[a + 1..];
  }

  // ---------------------------------------------------------------- the index agrees with the documents

  /** Looking a term up. */
  function ListOf(inverted: map<string, seq<(nat, nat)>>, t: string): seq<(nat, nat)> {
    if t in inverted then inverted[t] else []
  }

  ghost predicate Indexed(lex: Lexicon, docs: seq<Doc>, inverted: map<string, seq<(nat, nat)>>) {
    forall t :: ListOf(inverted, t) == Postings(Freqs(lex, docs, t))
  }

  /** Appending a document extends the lists of its own terms and no others. */
  lemma PostingsAppend(lex: Lexicon, docs: seq<Doc>, doc: Doc, t: string)
    ensures Postings(Freqs(lex, docs + [doc], t))
         == Postings(Freqs(lex, docs, t)) + if Tf(lex, doc, t) > 0 then [(|docs|, Tf(lex, doc, t))] else []
  {
    var fs := Freqs(lex, docs + [doc], t);
    assert fs[..|docs|] == Freqs(lex, docs, t);
  }

  lemma TotalLenAppend(lex: Lexicon, docs: seq<Doc>, doc: Doc)
    ensures TotalLen(lex, docs + [doc]) == TotalLen(lex, docs) + DocLen(lex, doc)
  {
    assert (docs + [doc])[..|docs|] == docs;
  }

  /** The term frequencies of one document. */
  method CountTerms(tokens: seq<string>) returns (tf: map<string, nat>)
    ensures forall t :: t in tf <==> t in tokens
    ensures forall t :: t in tf ==> tf[t] == multiset(tokens)[t]
  {
    tf := map[];
    for i := 0 to |tokens|
      invariant forall t :: t in tf <==> t in tokens[..i]
      invariant forall t :: t in tf ==> tf[t] == multiset(tokens[..i])[t]
    {
      var t := tokens[i];
      assert tokens[..i + 1] == tokens[..i] + [t];
      tf := tf[t := (if t in tf then tf[t] else 0) + 1];
    }
    assert tokens[..|tokens|] == tokens;
  }

  /** The sum of the term frequencies is the number of tokens, in whatever order they are added. */
  method SumFrequencies(tf: map<string, nat>, ghost tokens: seq<string>) returns (sum: nat)
    requires forall t :: t in tf <==> t in tokens
    requires forall t :: t in tf ==> tf[t] == multiset(tokens)[t]
    ensures sum == |tokens|
  {
    sum := 0;
    var todo := tf.Keys;
    ghost var rest := multiset(tokens);
    while todo != {}
      invariant todo <= tf.Keys
      invariant forall t :: rest[t] == if t in todo then tf[t] else 0
      invariant sum + |rest| == |tokens|
      decreases todo
    {
      var t :| t in todo;
      sum := sum + tf[t];
      rest := rest[t := 0];
      todo := todo - {t};
    }
    assert rest == multiset{};
  }

  lemma IndexedAfter(lex: Lexicon, docs: seq<Doc>, doc: Doc, before: map<string, seq<(nat, nat)>>, tf: map<string, nat>,
                     after: map<string, seq<(nat, nat)>>)
    requires Indexed(lex, docs, before)
    requires forall t :: t in tf <==> t in IndexTokens(lex, doc)
    requires forall t :: t in tf ==> tf[t] == multiset(IndexTokens(lex, doc))[t]
    requires forall t :: ListOf(after, t) == ListOf(before, t) + if t in tf then [(|docs|, tf[t])] else []
    ensures Indexed(lex, docs + [doc], after)
  {
    forall t ensures ListOf(after, t) == Postings(Freqs(lex, docs + [doc], t)) {
      PostingsAppend(lex, docs, doc, t);
    }
  }

  lemma LensAfter(lex: Lexicon, docs: seq<Doc>, doc: Doc, len: nat)
    requires len == |IndexTokens(lex, doc)|
    ensures DocLens(lex, docs + [doc]) == DocLens(lex, docs) + [if len < 1 then 1 else len]
  {
  }

  class MemoryStore {
    const lex: Lexicon
    var docs: seq<Doc>
    var inverted: map<string, seq<(nat, nat)>>
    var docLen: seq<nat>
    var avgDocLen: real

    ghost predicate Valid() reads this {
      && Indexed(lex, docs, inverted)
      && docLen == DocLens(lex, docs)
      && avgDocLen == AverageLen(lex, docs)
    }

    constructor (lex: Lexicon)
      ensures Valid() && docs == [] && this.lex == lex
    {
      this.lex := lex;
      docs, inverted, docLen, avgDocLen := [], map[], [], 0.0;
    }

    method RecomputeAvgLen()
      requires docLen == DocLens(lex, docs)
      modifies this`avgDocLen
      ensures avgDocLen == AverageLen(lex, docs)
    {
      if docLen == [] {
        avgDocLen := 0.0;
        return;
      }
      var sum := 0.0;
      for i := 0 to |docLen|
        invariant sum == TotalLen(lex, docs[..i]) as real
      {
        assert docs[..i + 1] == docs[..i] + [docs[i]];
        TotalLenAppend(lex, docs[..i], docs[i]);
        sum := sum + docLen[i] as real;
      }
      assert docs[..|docs|] == docs;
      avgDocLen := sum / |docLen| as real;
    }

    /** Append the postings of one document, in arbitrary order of its terms. */
    method PostAll(tf: map<string, nat>, idx: nat)
      modifies this`inverted
      ensures forall t :: ListOf(inverted, t) == ListOf(old(inverted), t) + if t in tf then [(idx, tf[t])] else []
    {
      var todo := tf.Keys;
      while todo != {}
        invariant todo <= tf.Keys
        invariant forall t :: ListOf(inverted, t) ==
                    ListOf(old(inverted), t) + if t in tf && t !in todo then [(idx, tf[t])] else []
        decreases todo
      {
        var term :| term in todo;
        inverted := inverted[term := ListOf(inverted, term) + [(idx, tf[term])]];
        todo := todo - {term};
      }
    }

    method AddDoc(doc: Doc)
      requires Valid()
      modifies this
      ensures Valid() && docs == old(docs) + [doc]
    {
      var idx := |docs|;
      var tokens := IndexTokens(lex, doc);
      var tf := CountTerms(tokens);
      var len := SumFrequencies(tf, tokens);
      docLen := docLen + [if len < 1 then 1 else len];
      PostAll(tf, idx);
      docs := docs + [doc];
      IndexedAfter(lex, old(docs), doc, old(inverted), tf, inverted);
      LensAfter(lex, old(docs), doc, len);
      RecomputeAvgLen();
    }

    method AddMemoryItem(item: MemoryItem)
      requires Valid()
      modifies this
      ensures Valid() && docs == old(docs) + [MemoryDoc(item)]
    {
      AddDoc(MemoryDoc(item));
    }

    method AddMessage(msgIndex: nat, msg: ChatMessage)
      requires Valid()
      modifies this
      ensures Valid() && docs == old(docs) + [MessageDoc(msgIndex, msg)]
    {
      AddDoc(MessageDoc(msgIndex, msg));
    }

    /** Start over from a loaded session: all memory items, then the most recent messages up to a cap. */
    method RebuildFromSession(memory: seq<MemoryItem>, messages: seq<ChatMessage>, indexMessages: bool,
                              maxMessages: nat)
      modifies this
      ensures Valid() && docs == Rebuilt(memory, messages, indexMessages, maxMessages)
    {
      docs, inverted, docLen, avgDocLen := [], map[], [], 0.0;
      AddMemory(memory);
      if indexMessages { AddMessages(messages, SaturatingSub(|messages|, maxMessages)); }
      RecomputeAvgLen();
    }

    method AddMemory(memory: seq<MemoryItem>)
      requires Valid() && docs == []
      modifies this
      ensures Valid() && docs == MemoryDocs(memory)
    {
      ghost var all := MemoryDocs(memory);
      for i := 0 to |memory|
        invariant Valid() && docs == all[..i]
      {
        NextDoc(all, i);
        AddMemoryItem(memory[i]);
      }
    }

    method AddMessages(messages: seq<ChatMessage>, start: nat)
      requires Valid() && start <= |messages|
      modifies this
      ensures Valid() && docs == old(docs) + MessageDocs(messages, start)
    {
      ghost var before, all := docs, MessageDocs(messages, start);
      for i := start to |messages|
        invariant Valid() && docs == before + all[..i - start]
      {
        NextDoc(all, i - start);
        AppendedAfter(before, all[..i - start], all[i - start]);
        AddMessage(i, messages[i]);
      }
      assert all[..|messages| - start] == all;
    }

    /** Add the contribution of every posting of one term to the scores of the documents that pass. */
    method ScoreTerm(ln: real -> real, term: string, f: Filter, table: map<nat, real>,
                     ghost fs: seq<nat>, ghost reached: seq<bool>, ghost add: seq<real>)
      returns (out: map<nat, real>)
      requires |fs| == |docs| == |docLen| && ListOf(inverted, term) == Postings(fs)
      requires Adds(ln, docs, docLen, Max1(avgDocLen), f, fs, reached, add)
      requires forall d: nat :: d in table ==> d < |docs|
      ensures forall d: nat :: d in out <==> d in table || (d < |docs| && reached[d])
      ensures forall d: nat :: d in out ==> out[d] == OrZero(table, d) + if reached[d] then add[d] else 0.0
    {
      out := table;
      var avgdl := Max1(avgDocLen);
      var postings := ListOf(inverted, term);
      var df := |postings|;
      ghost var seen: set<nat> := {};
      PostingsExact(fs);
      for p := 0 to |postings|
        invariant forall i :: 0 <= i < |postings| ==> (postings[i].0 in seen <==> i < p)
        invariant forall d :: d in seen ==> d < |docs| && fs[d] > 0
        invariant forall d: nat :: d in out <==> d in table || (d in seen && reached[d])
        invariant forall d: nat :: d in out ==>
                  out[d] == OrZero(table, d) + if d in seen && reached[d] then add[d] else 0.0
      {
        var (docIdx, tf) := postings[p];
        assert (docIdx, tf) in postings;
        seen := seen + {docIdx};
        assert AddsAt(ln, docs, docLen, avgdl, f, fs, reached, add, docIdx);
        if !Passes(f, docs[docIdx]) { continue; }
        var added := Contribution(ln, |docs|, df, tf, docLen[docIdx], avgdl);
        out := out[docIdx := OrZero(out, docIdx) + added];
      }
      forall d: nat | d < |docs| && reached[d] ensures d in seen {
        assert AddsAt(ln, docs, docLen, avgdl, f, fs, reached, add, d);
        assert (d, fs[d]) in postings;
      }
    }

    method ScoreNext(ln: real -> real, ghost done: seq<string>, term: string, f: Filter, table: map<nat, real>)
      returns (next: map<nat, real>)
      requires Valid() && Accumulated(Scores(ln, lex, docs, done), Eligibles(lex, docs, done, f), table)
      ensures Accumulated(Scores(ln, lex, docs, done + [term]), Eligibles(lex, docs, done + [term], f), next)
    {
      ghost var reached, add := TermSeqs(ln, lex, docs, term, f);
      next := ScoreTerm(ln, term, f, table, Freqs(lex, docs, term), reached, add);
      AccumulateStep(ln, lex, docs, done, term, f, reached, add, table, next);
    }

    /** The score table for all terms. */
    method ScoreTerms(ln: real -> real, terms: seq<string>, f: Filter) returns (table: map<nat, real>)
      requires Valid()
      ensures Accumulated(Scores(ln, lex, docs, terms), Eligibles(lex, docs, terms, f), table)
    {
      table := map[];
      NothingAccumulated(ln, lex, docs, f);
      ghost var done: seq<string> := [];
      for k := 0 to |terms|
        invariant done == terms[..k]
        invariant Accumulated(Scores(ln, lex, docs, done), Eligibles(lex, docs, done, f), table)
      {
        table := ScoreNext(ln, done, terms[k], f, table);
        NextTerm(terms, k);
        done := done + [terms[k]];
      }
      NextTerm(terms, |terms|);
    }

    /** Search by postings. The result is a best-first selection by brute-force score, ties in any
        order. */
    method Search(ln: real -> real, query: string, limit: nat, kindFilter: Option<DocKind>, cutoff: Option<nat>)
      returns (out: seq<SearchResult>)
      requires Valid()
      ensures var (terms, f) := (QueryTokens(lex, query), Filter(kindFilter, cutoff));
              TopResults(docs, Scores(ln, lex, docs, terms), Eligibles(lex, docs, terms, f), limit, out)
    {
      var f := Filter(kindFilter, cutoff);
      var terms := QueryTokens(lex, query);
      if limit == 0 || terms == [] || docs == [] {
        NothingToFind(docs, Scores(ln, lex, docs, terms), Eligibles(lex, docs, terms, f), limit);
        return [];
      }
      var table := ScoreTerms(ln, terms, f);
      var top := BestHits(table, limit, Scores(ln, lex, docs, terms), Eligibles(lex, docs, terms, f));
      out := Render(docs, top);
    }
  }

  lemma NothingToFind(docs: seq<Doc>, score: seq<real>, ok: seq<bool>, limit: nat)
    requires |score| == |ok| && (limit == 0 || forall d :: 0 <= d < |ok| ==> !ok[d])
    ensures TopResults(docs, score, ok, limit, [])
  {
    assert IsTop(score, ok, limit, []) && IsRendered(docs, [], []);
  }

  predicate IsRendered(docs: seq<Doc>, hits: seq<Hit>, out: seq<SearchResult>) {
    && |out| == |hits|
    && forall i :: 0 <= i < |out| ==> hits[i].id < |docs| && out[i] == SearchResult(hits[i].score, docs[hits[i].id])
  }

  /** `out` shows a best-first selection of the eligible documents. */
  ghost predicate TopResults(docs: seq<Doc>, score: seq<real>, ok: seq<bool>, limit: nat, out: seq<SearchResult>)
    requires |score| == |ok|
  {
    exists hits :: IsTop(score, ok, limit, hits) && IsRendered(docs, hits, out)
  }

  /** Sort the table by descending score and keep the first `limit`. */
  method BestHits(table: map<nat, real>, limit: nat, ghost score: seq<real>, ghost ok: seq<bool>)
    returns (top: seq<Hit>)
    requires |score| == |ok| && Accumulated(score, ok, table)
    ensures IsTop(score, ok, limit, top)
  {
    var all := CollectHits(table);
    var sorted := SortHits(all);
    SortHitsSorted(all);
    AllAreHits(score, ok, table, all);
    top := if |sorted| <= limit then sorted else sorted[..limit];
    TruncateIsTop(score, ok, limit, all, sorted, top);
  }

  function Render(docs: seq<Doc>, hits: seq<Hit>): (r: seq<SearchResult>)
    requires forall i :: 0 <= i < |hits| ==> hits[i].id < |docs|
    ensures IsRendered(docs, hits, r)
  {
    seq(|hits|, i requires 0 <= i < |hits| => SearchResult(hits[i].score, docs[hits[i].id]))
  }

  /** The contribution of a posting, in terms of the tables the search reads. */
  ghost predicate AddsAt(ln: real -> real, docs: seq<Doc>, docLen: seq<nat>, avgdl: real, f: Filter, fs: seq<nat>,
                         reached: seq<bool>, add: seq<real>, d: nat)
    requires d < |docs| == |docLen| == |fs| == |reached| == |add| && avgdl >= 1.0
  {
    && Positives(fs) <= |docs|
    && reached[d] == (Passes(f, docs[d]) && fs[d] > 0)
    && (fs[d] > 0 ==> add[d] == Contribution(ln, |docs|, Positives(fs), fs[d], docLen[d], avgdl))
  }

  ghost predicate Adds(ln: real -> real, docs: seq<Doc>, docLen: seq<nat>, avgdl: real, f: Filter, fs: seq<nat>,
                       reached: seq<bool>, add: seq<real>)
    requires avgdl >= 1.0
  {
    && |docs| == |docLen| == |fs| == |reached| == |add|
    && forall d: nat :: d < |docs| ==> AddsAt(ln, docs, docLen, avgdl, f, fs, reached, add, d)
  }

  lemma TermSeqs(ln: real -> real, lex: Lexicon, docs: seq<Doc>, t: string, f: Filter)
    returns (reached: seq<bool>, add: seq<real>)
    ensures TermTable(ln, lex, docs, t, f, reached, add)
    ensures Adds(ln, docs, DocLens(lex, docs), Max1(AverageLen(lex, docs)), f, Freqs(lex, docs, t), reached, add)
  {
    reached := seq(|docs|, d requires 0 <= d < |docs| => Passes(f, docs[d]) && Tf(lex, docs[d], t) > 0);
    add := seq(|docs|, d requires 0 <= d < |docs| => TermScore(ln, lex, docs, t, docs[d]));
    PostingsCount(Freqs(lex, docs, t));
    forall d: nat | d < |docs| ensures TermAt(ln, lex, docs, t, f, reached, add, d) {}
    forall d: nat | d < |docs|
      ensures AddsAt(ln, docs, DocLens(lex, docs), Max1(AverageLen(lex, docs)), f, Freqs(lex, docs, t), reached, add, d)
    {
      assert Freqs(lex, docs, t)[d] == Tf(lex, docs[d], t);
    }
  }

  /** What one term does to scores and eligibility, document by document. */
  ghost predicate Stepped(score: seq<real>, ok: seq<bool>, reached: seq<bool>, add: seq<real>, score': seq<real>,
                          ok': seq<bool>)
  {
    && |score| == |ok| == |reached| == |add| == |score'| == |ok'|
    && forall d :: 0 <= d < |ok| ==>
         && ok'[d] == (ok[d] || reached[d])
         && score'[d] == score[d] + add[d]
         && (ok'[d] ==> (!ok[d] ==> score[d] == 0.0) && (!reached[d] ==> add[d] == 0.0))
  }

  lemma AccumulateValues(score: seq<real>, ok: seq<bool>, reached: seq<bool>, add: seq<real>, score': seq<real>,
                         ok': seq<bool>, before: map<nat, real>, after: map<nat, real>)
    requires Stepped(score, ok, reached, add, score', ok') && Accumulated(score, ok, before)
    requires forall d: nat :: d in after <==> d in before || (d < |ok| && reached[d])
    requires forall d: nat :: d in after ==> after[d] == OrZero(before, d) + if reached[d] then add[d] else 0.0
    ensures Accumulated(score', ok', after)
  {
  }

  lemma AccumulateStep(ln: real -> real, lex: Lexicon, docs: seq<Doc>, terms: seq<string>, t: string, f: Filter,
                       reached: seq<bool>, add: seq<real>, before: map<nat, real>, after: map<nat, real>)
    requires TermTable(ln, lex, docs, t, f, reached, add)
    requires Accumulated(Scores(ln, lex, docs, terms), Eligibles(lex, docs, terms, f), before)
    requires forall d: nat :: d in after <==> d in before || (d < |docs| && reached[d])
    requires forall d: nat :: d in after ==> after[d] == OrZero(before, d) + if reached[d] then add[d] else 0.0
    ensures Accumulated(Scores(ln, lex, docs, terms + [t]), Eligibles(lex, docs, terms + [t], f), after)
  {
    AllStepped(ln, lex, docs, terms, t, f, reached, add);
    AccumulateValues(Scores(ln, lex, docs, terms), Eligibles(lex, docs, terms, f), reached, add,
                     Scores(ln, lex, docs, terms + [t]), Eligibles(lex, docs, terms + [t], f), before, after);
  }

  lemma AllStepped(ln: real -> real, lex: Lexicon, docs: seq<Doc>, terms: seq<string>, t: string, f: Filter,
                   reached: seq<bool>, add: seq<real>)
    requires TermTable(ln, lex, docs, t, f, reached, add)
    ensures Stepped(Scores(ln, lex, docs, terms), Eligibles(lex, docs, terms, f), reached, add,
                    Scores(ln, lex, docs, terms + [t]), Eligibles(lex, docs, terms + [t], f))
  {
    forall d | 0 <= d < |docs|
      ensures Eligibles(lex, docs, terms + [t], f)[d] == (Eligibles(lex, docs, terms, f)[d] || reached[d])
      ensures Scores(ln, lex, docs, terms + [t])[d] == Scores(ln, lex, docs, terms)[d] + add[d]
      ensures Passes(f, docs[d]) && !Eligibles(lex, docs, terms, f)[d] ==> Scores(ln, lex, docs, terms)[d] == 0.0
      ensures Passes(f, docs[d]) && !reached[d] ==> add[d] == 0.0
    {
      ScoreStep(ln, lex, docs, terms, t, f, reached, add, d);
    }
  }

  /** The table as a list, in arbitrary order. */
  method CollectHits(table: map<nat, real>) returns (all: seq<Hit>)
    ensures forall i :: 0 <= i < |all| ==> all[i].id in table && all[i].score == table[all[i].id]
    ensures forall i, j :: 0 <= i < j < |all| ==> all[i].id != all[j].id
    ensures forall d :: d in table ==> Listed(all, d)
  {
    all := [];
    var todo := table.Keys;
    while todo != {}
      invariant todo <= table.Keys
      invariant forall i :: 0 <= i < |all| ==>
                all[i].id in table && all[i].id !in todo && all[i].score == table[all[i].id]
      invariant forall i, j :: 0 <= i < j < |all| ==> all[i].id != all[j].id
      invariant forall d :: d in table && d !in todo ==> Listed(all, d)
      decreases todo
    {
      var d :| d in todo;
      ghost var before := all;
      all := all + [Hit(table[d], d)];
      todo := todo - {d};
      forall e | e in table && e !in todo ensures Listed(all, e) {
        if e == d {
          assert all[|before|].id == e;
        } else {
          var i :| 0 <= i < |before| && before[i].id == e;
          assert all[i].id == e;
        }
      }
    }
  }

  lemma AllAreHits(score: seq<real>, ok: seq<bool>, table: map<nat, real>, all: seq<Hit>)
    requires |score| == |ok| && Accumulated(score, ok, table)
    requires forall i :: 0 <= i < |all| ==> all[i].id in table && all[i].score == table[all[i].id]
    requires forall d :: d in table ==> Listed(all, d)
    ensures forall i :: 0 <= i < |all| ==> IsHit(score, ok, all[i])
    ensures forall d :: 0 <= d < |ok| && ok[d] ==> Listed(all, d)
  {
  }

  lemma NothingAccumulated(ln: real -> real, lex: Lexicon, docs: seq<Doc>, f: Filter)
    ensures Accumulated(Scores(ln, lex, docs, []), Eligibles(lex, docs, [], f), map[])
  {
  }
}
