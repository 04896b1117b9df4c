/** What recall does not find. */
module RecallWitnesses {
  import opened Chat
  import opened MemoryIndex
  import opened LocalIndex
  import opened Agent

  /** A session loaded with one message and grown by another, with a cap of one: the live index has both,
      the rebuilt one only the last. */
  lemma RestartForgets(m: ChatMessage, n: ChatMessage)
    ensures var docs := [MessageDoc(0, m), MessageDoc(1, n)];
            && InStep(docs, [], [m, n], IndexStart(1, true, 1))
            && multiset(docs) != multiset(Rebuilt([], [m, n], true, 1))
            && MessageDoc(0, m) in docs && MessageDoc(0, m) !in Rebuilt([], [m, n], true, 1)
  {
    var docs := [MessageDoc(0, m), MessageDoc(1, n)];
    assert MemoryDocs([]) + MessageDocs([m, n], 0) == docs;
    assert Rebuilt([], [m, n], true, 1) == [MessageDoc(1, n)];
    assert MessageDoc(0, m) in multiset(docs) && MessageDoc(0, m) !in multiset([MessageDoc(1, n)]);
  }

  /** A memory item with a tag and no text is never found, not by its tag either. */
  lemma TagAloneIsNeverFound(lex: Lexicon, tag: string, query: string, f: Filter)
    requires !lex.alnum(':') && lex.lower("") == ""
    ensures !Eligible(lex, QueryTokens(lex, query), f, MemoryDoc(MemoryItem("1", 0, "", [tag])))
  {
    var doc := MemoryDoc(MemoryItem("1", 0, "", [tag]));
    var terms := QueryTokens(lex, query);
    NothingToKeep(lex);
    forall i | 0 <= i < |terms| ensures Tf(lex, doc, terms[i]) == 0 {
      TagsNeverMatch(lex, doc, query, terms[i]);
    }
  }

  lemma NothingToKeep(lex: Lexicon)
    requires lex.lower("") == ""
    ensures Tokenize(lex, "") == []
  {
    var words := [""];
    assert Split(lex, "", []) == words && words[1..] == [];
    assert Keep(lex, words) == [] + Keep(lex, words[1..]);
  }
}
