/** The agent runtime: session and recall index kept in step, and what gets recalled. */
module Agent {
  import opened Bytes
  import opened Chat
  import opened MemoryIndex
  import opened LocalIndex

  // ---------------------------------------------------------------- the order of documents is irrelevant

  function Sum(g: Doc -> nat, docs: seq<Doc>): nat {
    if docs == [] then 0 else Sum(g, docs[..|docs| - 1]) + g(docs[|docs| - 1])
  }

  lemma {:induction false} SumConcat(g: Doc -> nat, a: seq<Doc>, b: seq<Doc>)
    ensures Sum(g, a + b) == Sum(g, a) + Sum(g, b)
  {
    if b == [] {
      assert a + b == a;
    } else {
      assert (a + b)[..|a + b| - 1] == a + b[..|b| - 1];
      SumConcat(g, a, b[..|b| - 1]);
    }
  }

  lemma SumRemove(g: Doc -> nat, b: seq<Doc>, j: nat)
    requires j < |b|
    ensures Sum(g, b) == Sum(g, b[..j] + b[j + 1..]) + g(b[j])
    ensures multiset(b) == multiset(b[..j] + b[j + 1..]) + multiset{b[j]}
  {
    TakenApart(b, j);
    SumThree(g, b[..j], b[j], b[j + 1..]);
  }

  lemma TakenApart(b: seq<Doc>, j: nat)
    requires j < |b|
    ensures b == b[..j] + [b[j]] + b[j + 1..]
    ensures multiset(b) == multiset(b[..j] + b[j + 1..]) + multiset{b[j]}
  {
    assert b == b[..j] + [b[j]] + b[j + 1..];
  }

  lemma SumThree(g: Doc -> nat, x: seq<Doc>, y: Doc, z: seq<Doc>)
    ensures Sum(g, x + [y] + z) == Sum(g, x + z) + g(y)
  {
    SumConcat(g, x + [y], z);
    SumConcat(g, x, z);
    SumLast(g, x, y);
  }

  lemma SumLast(g: Doc -> nat, x: seq<Doc>, y: Doc)
    ensures Sum(g, x + [y]) == Sum(g, x) + g(y)
  {
    assert (x + [y])[..|x|] == x;
  }

  lemma {:induction false} SumPermutation(g: Doc -> nat, a: seq<Doc>, b: seq<Doc>)
    requires multiset(a) == multiset(b)
    ensures Sum(g, a) == Sum(g, b)
    decreases |a|
  {
    if a == [] {
      assert |multiset(b)| == |b|;
    } else {
      var last, front := a[|a| - 1], a[..|a| - 1];
      assert a == front + [last];
      assert last in multiset(b);
      var j :| 0 <= j < |b| && b[j] == last;
      SumRemove(g, b, j);
      assert multiset(front) == multiset(a) - multiset{last};
      assert multiset(b[..j] + b[j + 1..]) == multiset(b) - multiset{last};
      SumPermutation(g, front, b[..j] + b[j + 1..]);
    }
  }

  lemma {:induction false} DocFreqIsSum(lex: Lexicon, docs: seq<Doc>, t: string)
    ensures DocFreq(lex, docs, t) == Sum(d => if Tf(lex, d, t) > 0 then 1 else 0, docs)
  {
    if docs != [] {
      var front := docs[..|docs| - 1];
      DocFreqIsSum(lex, front, t);
      assert Freqs(lex, docs, t)[..|docs| - 1] == Freqs(lex, front, t);
    }
  }

  lemma {:induction false} TotalLenIsSum(lex: Lexicon, docs: seq<Doc>)
    ensures TotalLen(lex, docs) == Sum(d => DocLen(lex, d), docs)
  {
    if docs != [] { TotalLenIsSum(lex, docs[..|docs| - 1]); }
  }

  lemma CollectionStatistics(lex: Lexicon, a: seq<Doc>, b: seq<Doc>, t: string)
    requires multiset(a) == multiset(b)
    ensures |a| == |b| && DocFreq(lex, a, t) == DocFreq(lex, b, t) && AverageLen(lex, a) == AverageLen(lex, b)
  {
    assert |a| == |multiset(a)| == |multiset(b)| == |b|;
    DocFreqIsSum(lex, a, t);
    DocFreqIsSum(lex, b, t);
    SumPermutation(d => if Tf(lex, d, t) > 0 then 1 else 0, a, b);
    TotalLenIsSum(lex, a);
    TotalLenIsSum(lex, b);
    SumPermutation(d => DocLen(lex, d), a, b);
  }

  lemma TermScorePermutation(ln: real -> real, lex: Lexicon, a: seq<Doc>, b: seq<Doc>, t: string, doc: Doc)
    requires multiset(a) == multiset(b)
    ensures TermScore(ln, lex, a, t, doc) == TermScore(ln, lex, b, t, doc)
  {
    CollectionStatistics(lex, a, b, t);
  }

  /** Indexes over the same documents in different orders give every document the same score. */
  lemma {:induction false} ScorePermutation(ln: real -> real, lex: Lexicon, a: seq<Doc>, b: seq<Doc>,
                                            terms: seq<string>, doc: Doc)
    requires multiset(a) == multiset(b)
    ensures Score(ln, lex, a, terms, doc) == Score(ln, lex, b, terms, doc)
  {
    if terms != [] {
      ScorePermutation(ln, lex, a, b, terms[..|terms| - 1], doc);
      TermScorePermutation(ln, lex, a, b, terms[|terms| - 1], doc);
    }
  }

  // ---------------------------------------------------------------- live index and rebuilt index

  /** The live index holds these documents, in some order: every memory item, and every message from
      `start` on. */
  ghost predicate InStep(docs: seq<Doc>, memory: seq<MemoryItem>, messages: seq<ChatMessage>, start: nat) {
    start <= |messages| && multiset(docs) == multiset(MemoryDocs(memory) + MessageDocs(messages, start))
  }

  lemma MemoryAppended(docs: seq<Doc>, memory: seq<MemoryItem>, messages: seq<ChatMessage>, start: nat,
                       item: MemoryItem)
    requires InStep(docs, memory, messages, start)
    ensures InStep(docs + [MemoryDoc(item)], memory + [item], messages, start)
  {
    assert MemoryDocs(memory + [item]) == MemoryDocs(memory) + [MemoryDoc(item)];
  }

  lemma MessageAppended(docs: seq<Doc>, memory: seq<MemoryItem>, messages: seq<ChatMessage>, start: nat,
                        msg: ChatMessage)
    requires InStep(docs, memory, messages, start)
    ensures InStep(docs + [MessageDoc(|messages|, msg)], memory, messages + [msg], start)
  {
    assert MessageDocs(messages + [msg], start) == MessageDocs(messages, start) + [MessageDoc(|messages|, msg)];
  }

  lemma SameSizes(docs: seq<Doc>, memory: seq<MemoryItem>, messages: seq<ChatMessage>, start: nat)
    requires InStep(docs, memory, messages, start)
    ensures |multiset(docs)| == |memory| + |messages| - start
  {
  }

  /** The theorem: a session loaded with `loaded` messages and grown to its present length has an
      index that is a permutation of the one a restart would build exactly when no message was added,
      or messages are indexed and still fit the cap. Then every query scores every document alike. */
  lemma LiveIndexMatchesRebuilt(ln: real -> real, lex: Lexicon, docs: seq<Doc>, memory: seq<MemoryItem>,
                                messages: seq<ChatMessage>, loaded: nat, indexMessages: bool, maxMessages: nat)
    requires loaded <= |messages| && InStep(docs, memory, messages, IndexStart(loaded, indexMessages, maxMessages))
    ensures var rebuilt := Rebuilt(memory, messages, indexMessages, maxMessages);
            && (multiset(docs) == multiset(rebuilt)
               <==> |messages| == loaded || (indexMessages && |messages| <= maxMessages))
            && (multiset(docs) == multiset(rebuilt) ==>
                  forall terms, doc :: Score(ln, lex, docs, terms, doc) == Score(ln, lex, rebuilt, terms, doc))
  {
    var rebuilt := Rebuilt(memory, messages, indexMessages, maxMessages);
    SameSizes(docs, memory, messages, IndexStart(loaded, indexMessages, maxMessages));
    assert |multiset(docs)| == |memory| + |messages| - IndexStart(loaded, indexMessages, maxMessages);
    assert |multiset(rebuilt)| == |memory| + |messages| - IndexStart(|messages|, indexMessages, maxMessages);
    if multiset(docs) == multiset(rebuilt) {
      forall terms, doc ensures Score(ln, lex, docs, terms, doc) == Score(ln, lex, rebuilt, terms, doc) {
        ScorePermutation(ln, lex, docs, rebuilt, terms, doc);
      }
    }
  }

  /** Every message document names a message and carries its role and text. */
  lemma MessageDocIsMessage(docs: seq<Doc>, memory: seq<MemoryItem>, messages: seq<ChatMessage>, start: nat, doc: Doc)
    requires InStep(docs, memory, messages, start) && doc in docs && doc.kind.Message?
    ensures doc.msgIndex.Some? && doc.msgIndex.value < |messages|
    ensures doc.role == Some(messages[doc.msgIndex.value].role) && doc.text == messages[doc.msgIndex.value].content
  {
    assert doc in multiset(docs);
    assert doc in MemoryDocs(memory) + MessageDocs(messages, start);
  }

  // ---------------------------------------------------------------- recall

  /** The first 400 characters, with an ellipsis if there were more. */
  function Snippet(text: string): string {
    if |text| > 400 then text[..400] + [ELLIPSIS] else text
  }

  /** A found message as it goes into the prompt. */
  function SnippetOf(doc: Doc): ChatMessage {
    ChatMessage(if doc.role.Some? then doc.role.value else "unknown", Snippet(doc.text), [])
  }

  predicate AreSnippets(recall: seq<ChatMessage>, rs: seq<SearchResult>) {
    |recall| == |rs| && forall i :: 0 <= i < |rs| ==> recall[i] == SnippetOf(rs[i].doc)
  }

  predicate AreDocs(docs: seq<Doc>, rs: seq<SearchResult>) {
    |docs| == |rs| && forall i :: 0 <= i < |rs| ==> docs[i] == rs[i].doc
  }

  /** What a search over these documents may return. */
  ghost predicate Found(ln: real -> real, lex: Lexicon, docs: seq<Doc>, query: string, f: Filter, limit: nat,
                        rs: seq<SearchResult>)
  {
    var terms := QueryTokens(lex, query);
    TopResults(docs, Scores(ln, lex, docs, terms), Eligibles(lex, docs, terms, f), limit, rs)
  }

  /** A bundle of memories and snippets, each the best found by a search. */
  ghost predicate Retrieved(ln: real -> real, lex: Lexicon, docs: seq<Doc>, query: string, cutoff: Option<nat>,
                            maxMemories: nat, maxSnippets: nat, memories: seq<Doc>, recall: seq<ChatMessage>)
  {
    && (exists ms :: Found(ln, lex, docs, query, Filter(Some(Memory), None), maxMemories, ms) && AreDocs(memories, ms))
    && (exists rs ::
          && Found(ln, lex, docs, query, Filter(Some(Message), cutoff), maxSnippets, rs)
          && AreSnippets(recall, rs))
  }

  /** The last `n` messages, which go into the prompt verbatim. */
  function TakeLast(messages: seq<ChatMessage>, n: nat): seq<ChatMessage> {
    if |messages| <= n then messages else messages[|messages| - n..]
  }

  function Asked(messages: seq<ChatMessage>, userMsg: string): seq<ChatMessage>
  {
    messages + [ChatMessage("user", userMsg, [])]
  }

  /** A snippet is the text itself when it has at most 400 characters, and otherwise its first 400 and an
      ellipsis. */
  lemma SnippetIs(text: string)
    ensures |text| <= 400 ==> Snippet(text) == text
    ensures |text| > 400 ==> |Snippet(text)| == 401 && Snippet(text)[..400] <= text && Snippet(text)[400] == '\U{2026}'
  {
  }

  /** The recall cutoff is where the verbatim window starts. */
  lemma CutoffIsWindow(messages: seq<ChatMessage>, n: nat)
    ensures SaturatingSub(|messages|, n) == |messages| - |TakeLast(messages, n)|
    ensures messages == messages[..SaturatingSub(|messages|, n)] + TakeLast(messages, n)
  {
  }

  /** The document stands for a message below the cutoff. */
  predicate Recallable(doc: Doc, messages: seq<ChatMessage>, cutoff: Option<nat>) {
    && doc.kind.Message? && doc.msgIndex.Some? && doc.msgIndex.value < |messages|
    && (cutoff.Some? ==> doc.msgIndex.value < cutoff.value)
    && doc.role == Some(messages[doc.msgIndex.value].role) && doc.text == messages[doc.msgIndex.value].content
  }

  /** The snippet comes from one of the first `cutoff` messages. */
  ghost predicate IsRecalled(m: ChatMessage, messages: seq<ChatMessage>, cutoff: Option<nat>) {
    exists i :: 0 <= i < |messages| && (cutoff.Some? ==> i < cutoff.value)
      && m == ChatMessage(messages[i].role, Snippet(messages[i].content), [])
  }

  /** A search for messages below a cutoff finds nothing else. */
  lemma FoundAreRecallable(ln: real -> real, lex: Lexicon, docs: seq<Doc>, query: string, cutoff: Option<nat>,
                           limit: nat, rs: seq<SearchResult>, memory: seq<MemoryItem>, messages: seq<ChatMessage>,
                           start: nat)
    requires InStep(docs, memory, messages, start)
    requires Found(ln, lex, docs, query, Filter(Some(Message), cutoff), limit, rs)
    ensures |rs| <= limit && forall i :: 0 <= i < |rs| ==> Recallable(rs[i].doc, messages, cutoff)
  {
    var terms, f := QueryTokens(lex, query), Filter(Some(Message), cutoff);
    var hits: seq<Hit> :| IsTop(Scores(ln, lex, docs, terms), Eligibles(lex, docs, terms, f), limit, hits)
      && IsRendered(docs, hits, rs);
    forall i | 0 <= i < |rs| ensures Recallable(rs[i].doc, messages, cutoff) {
      assert IsHit(Scores(ln, lex, docs, terms), Eligibles(lex, docs, terms, f), hits[i]);
      MessageDocIsMessage(docs, memory, messages, start, docs[hits[i].id]);
    }
  }

  /** A search for memories finds memory items only. */
  lemma FoundAreMemories(ln: real -> real, lex: Lexicon, docs: seq<Doc>, query: string, limit: nat,
                         rs: seq<SearchResult>, memory: seq<MemoryItem>, messages: seq<ChatMessage>, start: nat)
    requires InStep(docs, memory, messages, start)
    requires Found(ln, lex, docs, query, Filter(Some(Memory), None), limit, rs)
    ensures |rs| <= limit && forall i :: 0 <= i < |rs| ==> rs[i].doc in MemoryDocs(memory)
  {
    var terms, f := QueryTokens(lex, query), Filter(Some(Memory), None);
    var hits: seq<Hit> :| IsTop(Scores(ln, lex, docs, terms), Eligibles(lex, docs, terms, f), limit, hits)
      && IsRendered(docs, hits, rs);
    forall i | 0 <= i < |rs| ensures rs[i].doc in MemoryDocs(memory) {
      assert IsHit(Scores(ln, lex, docs, terms), Eligibles(lex, docs, terms, f), hits[i]);
      MemoryDocIsMemory(docs, memory, messages, start, docs[hits[i].id]);
    }
  }

  lemma MemoryDocIsMemory(docs: seq<Doc>, memory: seq<MemoryItem>, messages: seq<ChatMessage>, start: nat, doc: Doc)
    requires InStep(docs, memory, messages, start) && doc in docs && doc.kind.Memory?
    ensures doc in MemoryDocs(memory)
  {
    assert doc in multiset(docs);
    assert doc in MemoryDocs(memory) + MessageDocs(messages, start);
  }

  /** Memories are memory items; snippets come from messages before the cutoff. */
  lemma RetrievedIsFromSession(ln: real -> real, lex: Lexicon, docs: seq<Doc>, query: string, cutoff: Option<nat>,
                               maxMemories: nat, maxSnippets: nat, memories: seq<Doc>, recall: seq<ChatMessage>,
                               memory: seq<MemoryItem>, messages: seq<ChatMessage>, start: nat)
    requires InStep(docs, memory, messages, start)
    requires Retrieved(ln, lex, docs, query, cutoff, maxMemories, maxSnippets, memories, recall)
    ensures |memories| <= maxMemories && forall i :: 0 <= i < |memories| ==> memories[i] in MemoryDocs(memory)
    ensures |recall| <= maxSnippets && forall i :: 0 <= i < |recall| ==> IsRecalled(recall[i], messages, cutoff)
  {
    var ms: seq<SearchResult> :| Found(ln, lex, docs, query, Filter(Some(Memory), None), maxMemories, ms)
      && AreDocs(memories, ms);
    FoundAreMemories(ln, lex, docs, query, maxMemories, ms, memory, messages, start);
    var rs: seq<SearchResult> :| Found(ln, lex, docs, query, Filter(Some(Message), cutoff), maxSnippets, rs)
      && AreSnippets(recall, rs);
    FoundAreRecallable(ln, lex, docs, query, cutoff, maxSnippets, rs, memory, messages, start);
    forall i | 0 <= i < |recall| ensures IsRecalled(recall[i], messages, cutoff) {
      var k := rs[i].doc.msgIndex.value;
      assert recall[i] == ChatMessage(messages[k].role, Snippet(messages[k].content), []);
    }
  }

  /** Turn search results into prompt snippets. */
  method Snippets(rs: seq<SearchResult>) returns (recall: seq<ChatMessage>)
    ensures AreSnippets(recall, rs)
  {
    recall := [];
    for i := 0 to |rs|
      invariant AreSnippets(recall, rs[..i])
    {
      var role := if rs[i].doc.role.Some? then rs[i].doc.role.value else "unknown";
      recall := recall + [ChatMessage(role, Snippet(rs[i].doc.text), [])];
    }
    assert rs[..|rs|] == rs;
  }

  class AgentRuntime {
    const store: MemoryStore
    const ln: real -> real
    const maxRecentMessages: nat
    const maxMemoryItems: nat
    const maxRecallSnippets: nat
    var memory: seq<MemoryItem>
    var messages: seq<ChatMessage>
    ghost var loaded: nat
    ghost const indexMessages: bool
    ghost const maxMessages: nat

    ghost predicate Valid()
      reads this, store
    {
      && store.Valid() && loaded <= |messages|
      && InStep(store.docs, memory, messages, IndexStart(loaded, indexMessages, maxMessages))
    }

    constructor (lex: Lexicon, ln: real -> real, memory: seq<MemoryItem>, messages: seq<ChatMessage>,
                 indexMessages: bool, maxMessages: nat, maxRecentMessages: nat, maxMemoryItems: nat,
                 maxRecallSnippets: nat)
      ensures Valid() && fresh(store) && this.memory == memory && this.messages == messages && loaded == |messages|
      ensures this.ln == ln && store.lex == lex
      ensures store.docs == Rebuilt(memory, messages, indexMessages, maxMessages)
    {
      var s := new MemoryStore(lex);
      s.RebuildFromSession(memory, messages, indexMessages, maxMessages);
      this.store := s;
      this.ln := ln;
      this.maxRecentMessages := maxRecentMessages;
      this.maxMemoryItems := maxMemoryItems;
      this.maxRecallSnippets := maxRecallSnippets;
      this.memory := memory;
      this.messages := messages;
      this.loaded := |messages|;
      this.indexMessages := indexMessages;
      this.maxMessages := maxMessages;
    }

    method Remember(item: MemoryItem)
      requires Valid()
      modifies this`memory, store
      ensures Valid() && memory == old(memory) + [item]
      ensures store.docs == old(store.docs) + [MemoryDoc(item)]
    {
      MemoryAppended(store.docs, memory, messages, IndexStart(loaded, indexMessages, maxMessages), item);
      memory := memory + [item];
      store.AddMemoryItem(item);
    }

    method Push(msg: ChatMessage)
      requires Valid()
      modifies this`messages, store
      ensures Valid() && messages == old(messages) + [msg]
      ensures store.docs == old(store.docs) + [MessageDoc(|old(messages)|, msg)]
    {
      MessageAppended(store.docs, memory, messages, IndexStart(loaded, indexMessages, maxMessages), msg);
      var index := |messages|;
      messages := messages + [msg];
      store.AddMessage(index, msg);
    }

    method RetrieveContext(query: string, cutoff: Option<nat>) returns (memories: seq<Doc>, recall: seq<ChatMessage>)
      requires Valid()
      ensures Retrieved(ln, store.lex, store.docs, query, cutoff, maxMemoryItems, maxRecallSnippets, memories, recall)
    {
      var ms := store.Search(ln, query, maxMemoryItems, Some(Memory), None);
      memories := seq(|ms|, i requires 0 <= i < |ms| => ms[i].doc);
      assert Found(ln, store.lex, store.docs, query, Filter(Some(Memory), None), maxMemoryItems, ms)
             && AreDocs(memories, ms);
      var rs := [];
      if maxRecallSnippets > 0 {
        rs := store.Search(ln, query, maxRecallSnippets, Some(Message), cutoff);
      } else {
        ghost var terms, f := QueryTokens(store.lex, query), Filter(Some(Message), cutoff);
        NothingToFind(store.docs, Scores(ln, store.lex, store.docs, terms), Eligibles(store.lex, store.docs, terms, f),
                      0);
      }
      assert Found(ln, store.lex, store.docs, query, Filter(Some(Message), cutoff), maxRecallSnippets, rs);
      recall := Snippets(rs);
    }

    /** Store and index the user's message, and collect what goes into the prompt. */
    method Ask(userMsg: string) returns (memories: seq<Doc>, recall: seq<ChatMessage>, recent: seq<ChatMessage>)
      requires Valid()
      modifies this`messages, store
      ensures Valid() && messages == Asked(old(messages), userMsg)
      ensures store.docs == old(store.docs) + [MessageDoc(|old(messages)|, ChatMessage("user", userMsg, []))]
      ensures recent == TakeLast(Asked(old(messages), userMsg), maxRecentMessages)
      ensures Retrieved(ln, store.lex,
                        old(store.docs) + [MessageDoc(|old(messages)|, ChatMessage("user", userMsg, []))], userMsg,
                        Some(|Asked(old(messages), userMsg)| - |recent|), maxMemoryItems, maxRecallSnippets, memories,
                        recall)
      ensures forall i :: 0 <= i < |recall| ==>
                IsRecalled(recall[i], Asked(old(messages), userMsg), Some(|Asked(old(messages), userMsg)| - |recent|))
    {
      Push(ChatMessage("user", userMsg, []));
      var excludeCutoff := SaturatingSub(|messages|, maxRecentMessages);
      recent := TakeLast(messages, maxRecentMessages);
      CutoffIsWindow(messages, maxRecentMessages);
      memories, recall := RetrieveContext(userMsg, Some(excludeCutoff));
      RetrievedIsFromSession(ln, store.lex, store.docs, userMsg, Some(excludeCutoff), maxMemoryItems, maxRecallSnippets,
                             memories, recall, memory, messages, IndexStart(loaded, indexMessages, maxMessages));
    }

    /** Send a message: store and index it, recall older ones, and store and index the reply if the
        gateway gives one. What is recalled never overlaps the recent messages sent verbatim. */
    method SendUserMessage(userMsg: string, reply: Option<string>)
      returns (memories: seq<Doc>, recall: seq<ChatMessage>, recent: seq<ChatMessage>)
      requires Valid()
      modifies this`messages, store
      ensures Valid()
      ensures messages
           == Asked(old(messages), userMsg) + (if reply.Some? then [ChatMessage("assistant", reply.value, [])] else [])
      ensures recent == TakeLast(Asked(old(messages), userMsg), maxRecentMessages)
      ensures Retrieved(ln, store.lex,
                        old(store.docs) + [MessageDoc(|old(messages)|, ChatMessage("user", userMsg, []))], userMsg,
                        Some(|Asked(old(messages), userMsg)| - |recent|), maxMemoryItems, maxRecallSnippets, memories,
                        recall)
      ensures forall i :: 0 <= i < |recall| ==>
                IsRecalled(recall[i], Asked(old(messages), userMsg), Some(|Asked(old(messages), userMsg)| - |recent|))
    {
      memories, recall, recent := Ask(userMsg);
      AddReply(reply);
    }

    method AddReply(reply: Option<string>)
      requires Valid()
      modifies this`messages, store
      ensures Valid()
      ensures messages == old(messages) + (if reply.Some? then [ChatMessage("assistant", reply.value, [])] else [])
    {
      match reply {
        case Some(out) => Push(ChatMessage("assistant", out, []));
        case None =>
      }
    }
  }
}
