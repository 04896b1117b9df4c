/** Which words a text has, and that a shared word is enough to be found. */
module Words {
  import opened Bytes
  import opened MemoryIndex
  import opened LocalIndex
  import opened Chat

  // ---------------------------------------------------------------- runs

  /** A run of alphanumeric characters that cannot be made longer. */
  predicate IsRun(lex: Lexicon, s: string, i: int, j: int) {
    && 0 <= i < j <= |s| && (forall k :: i <= k < j ==> lex.alnum(s[k]))
    && (i > 0 ==> !lex.alnum(s[i - 1])) && (j < |s| ==> !lex.alnum(s[j]))
  }

  /** Whole runs that satisfy `p`, from position `from` on. */
  function RunsFrom(lex: Lexicon, s: string, p: string -> bool, from: nat): set<(int, int)> {
    set i, j | from <= i < |s| && 0 <= j <= |s| && RunWith(lex, s, p, i, j) :: (i, j)
  }

  predicate RunWith(lex: Lexicon, s: string, p: string -> bool, i: int, j: int) { IsRun(lex, s, i, j) && p(s[i..j]) }

  /** Words the index ignores: shorter than three bytes, or on the list. */
  predicate Counts(lex: Lexicon, t: string) { ByteLen(t) >= 3 && !lex.stop(t) }

  function CountIf(p: string -> bool, words: seq<string>): nat {
    if words == [] then 0 else (if p(words[0]) then 1 else 0) + CountIf(p, words[1..])
  }

  /** Reading from position `q` with the unfinished word that starts at `b`. */
  predicate Reading(lex: Lexicon, s: string, b: nat, q: nat) {
    b <= q <= |s| && (forall k :: b <= k < q ==> lex.alnum(s[k])) && (b > 0 ==> !lex.alnum(s[b - 1]))
  }

  lemma RunStarts(lex: Lexicon, s: string, b: nat, q: nat, i: int, j: int)
    requires Reading(lex, s, b, q) && b <= i && IsRun(lex, s, i, j)
    ensures i == b || q < i
  {
    assert i > 0 ==> !lex.alnum(s[i - 1]);
  }

  lemma RunEnds(lex: Lexicon, s: string, b: nat, q: nat, j: int)
    requires Reading(lex, s, b, q) && (q == |s| || !lex.alnum(s[q]))
    ensures IsRun(lex, s, b, j) <==> b < q && j == q
  {
    assert q < |s| ==> !lex.alnum(s[q]);
    assert IsRun(lex, s, b, j) && j < |s| ==> !lex.alnum(s[j]);
  }

  /** What is left to read holds the unfinished word and the runs behind it. */
  lemma RunsSplit(lex: Lexicon, s: string, p: string -> bool, b: nat, q: nat)
    requires Reading(lex, s, b, q) && q < |s| && !lex.alnum(s[q])
    ensures RunsFrom(lex, s, p, b)
         == RunsFrom(lex, s, p, q + 1) + if b < q && p(s[b..q]) then {(b as int, q as int)} else {}
  {
    forall i, j | (i, j) in RunsFrom(lex, s, p, b)
      ensures (i, j) in RunsFrom(lex, s, p, q + 1) || (b < q && p(s[b..q]) && (i, j) == (b, q))
    {
      RunStarts(lex, s, b, q, i, j);
      RunEnds(lex, s, b, q, j);
    }
    RunEnds(lex, s, b, q, q);
  }

  lemma RunsAtEnd(lex: Lexicon, s: string, p: string -> bool, b: nat)
    requires Reading(lex, s, b, |s|)
    ensures RunsFrom(lex, s, p, b) == if b < |s| && p(s[b..]) then {(b as int, |s| as int)} else {}
  {
    assert s[b..] == s[b..|s|];
    forall i, j | (i, j) in RunsFrom(lex, s, p, b) ensures b < |s| && p(s[b..]) && (i, j) == (b, |s|) {
      RunStarts(lex, s, b, |s|, i, j);
      RunEnds(lex, s, b, |s|, j);
    }
    RunEnds(lex, s, b, |s|, |s|);
  }

  /** Splitting what is left yields as many words that satisfy `p` as there are such runs. */
  predicate Agrees(lex: Lexicon, s: string, p: string -> bool, b: nat, q: nat)
    requires b <= q <= |s|
  {
    CountIf(p, Split(lex, s[q..], s[b..q])) == |RunsFrom(lex, s, p, b)|
  }

  lemma AgreesAtEnd(lex: Lexicon, s: string, p: string -> bool, b: nat)
    requires Reading(lex, s, b, |s|) && !p("")
    ensures Agrees(lex, s, p, b, |s|)
  {
    assert s[|s|..] == [] && s[b..|s|] == s[b..];
    assert [s[b..]][1..] == [];
    RunsAtEnd(lex, s, p, b);
  }

  lemma AgreesInWord(lex: Lexicon, s: string, p: string -> bool, b: nat, q: nat)
    requires b <= q < |s| && lex.alnum(s[q]) && Agrees(lex, s, p, b, q + 1)
    ensures Agrees(lex, s, p, b, q)
  {
    assert s[q..][0] == s[q] && s[q..][1..] == s[q + 1..];
    assert s[b..q] + [s[q]] == s[b..q + 1];
  }

  lemma AgreesAtBreak(lex: Lexicon, s: string, p: string -> bool, b: nat, q: nat)
    requires Reading(lex, s, b, q) && q < |s| && !lex.alnum(s[q]) && !p("") && Agrees(lex, s, p, q + 1, q + 1)
    ensures Agrees(lex, s, p, b, q)
  {
    SplitAtBreak(lex, s, b, q);
    OneMore(lex, s, p, b, q, Split(lex, s[q + 1..], s[q + 1..q + 1]));
  }

  lemma SplitAtBreak(lex: Lexicon, s: string, b: nat, q: nat)
    requires b <= q < |s| && !lex.alnum(s[q])
    ensures Split(lex, s[q..], s[b..q]) == [s[b..q]] + Split(lex, s[q + 1..], s[q + 1..q + 1])
  {
    assert s[q..][0] == s[q] && s[q..][1..] == s[q + 1..] && s[q + 1..q + 1] == [];
  }

  /** One word, and the runs behind it. */
  lemma OneMore(lex: Lexicon, s: string, p: string -> bool, b: nat, q: nat, rest: seq<string>)
    requires Reading(lex, s, b, q) && q < |s| && !lex.alnum(s[q]) && !p("")
    requires CountIf(p, rest) == |RunsFrom(lex, s, p, q + 1)|
    ensures CountIf(p, [s[b..q]] + rest) == |RunsFrom(lex, s, p, b)|
  {
    RunsSplit(lex, s, p, b, q);
    assert ([s[b..q]] + rest)[1..] == rest;
    if b == q { assert s[b..q] == ""; }
    assert (b as int, q as int) !in RunsFrom(lex, s, p, q + 1);
  }

  /** Splitting yields every run. */
  lemma {:induction false} SplitCounts(lex: Lexicon, s: string, p: string -> bool, b: nat, q: nat)
    requires Reading(lex, s, b, q) && !p("")
    ensures Agrees(lex, s, p, b, q)
    decreases |s| - q
  {
    if q == |s| {
      AgreesAtEnd(lex, s, p, b);
    } else if lex.alnum(s[q]) {
      SplitCounts(lex, s, p, b, q + 1);
      AgreesInWord(lex, s, p, b, q);
    } else {
      SplitCounts(lex, s, p, q + 1, q + 1);
      AgreesAtBreak(lex, s, p, b, q);
    }
  }

  lemma {:induction false} KeepCounts(lex: Lexicon, words: seq<string>, t: string)
    ensures multiset(Keep(lex, words))[t] == if Counts(lex, t) then CountIf(x => x == t, words) else 0
    ensures |Keep(lex, words)| == CountIf(x => Counts(lex, x), words)
  {
    if words != [] {
      KeepCounts(lex, words[1..], t);
      assert Keep(lex, words) == (if Counts(lex, words[0]) then [words[0]] else []) + Keep(lex, words[1..]);
    }
  }

  lemma AllRuns(lex: Lexicon, s: string, p: string -> bool)
    requires !p("")
    ensures CountIf(p, Split(lex, s, [])) == |RunsFrom(lex, s, p, 0)|
  {
    SplitCounts(lex, s, p, 0, 0);
    assert s[0..] == s && s[0..0] == [];
  }

  /** The words of a text: a word is there as often as it stands as a whole run in the lower-case text,
      if it has three bytes and is not on the list; nothing else is. */
  lemma TokenCount(lex: Lexicon, text: string, t: string)
    ensures multiset(Tokenize(lex, text))[t]
         == if Counts(lex, t) then |RunsFrom(lex, lex.lower(text), x => x == t, 0)| else 0
  {
    KeepCounts(lex, Split(lex, lex.lower(text), []), t);
    if Counts(lex, t) { AllRuns(lex, lex.lower(text), x => x == t); }
  }

  /** And there are as many words as such runs. */
  lemma TokenTotal(lex: Lexicon, text: string)
    ensures |Tokenize(lex, text)| == |RunsFrom(lex, lex.lower(text), x => Counts(lex, x), 0)|
  {
    KeepCounts(lex, Split(lex, lex.lower(text), []), "");
    AllRuns(lex, lex.lower(text), x => Counts(lex, x));
  }

  ghost predicate HasWord(lex: Lexicon, text: string, t: string) {
    Counts(lex, t) && exists i, j :: IsRun(lex, lex.lower(text), i, j) && lex.lower(text)[i..j] == t
  }

  lemma TokenIff(lex: Lexicon, text: string, t: string)
    ensures t in Tokenize(lex, text) <==> HasWord(lex, text, t)
  {
    var s := lex.lower(text);
    var runs := RunsFrom(lex, s, x => x == t, 0);
    TokenCount(lex, text, t);
    if HasWord(lex, text, t) {
      var i, j :| IsRun(lex, s, i, j) && s[i..j] == t;
      assert (i, j) in runs;
      assert |runs| > 0;
    }
    if t in Tokenize(lex, text) {
      assert t in multiset(Tokenize(lex, text));
      var r :| r in runs;
      assert IsRun(lex, s, r.0, r.1) && s[r.0..r.1] == t;
    }
  }

  // ---------------------------------------------------------------- tags

  lemma {:induction false} TagTokenIff(lex: Lexicon, tags: seq<string>, t: string)
    ensures t in TagTokens(lex, tags) <==>
            exists i :: 0 <= i < |tags| && lex.lower(lex.trim(tags[i])) != ""
                        && t == "tag:" + lex.lower(lex.trim(tags[i]))
  {
    if tags != [] {
      TagTokenIff(lex, tags[1..], t);
      assert forall i :: 0 < i < |tags| ==> tags[i] == tags[1..][i - 1];
      assert t in TagTokens(lex, tags[1..]) ==> t in TagTokens(lex, tags);
      if t in TagTokens(lex, tags[1..]) {
        var i :| 0 <= i < |tags| - 1 && lex.lower(lex.trim(tags[1..][i])) != ""
                 && t == "tag:" + lex.lower(lex.trim(tags[1..][i]));
        assert tags[i + 1] == tags[1..][i];
      }
    }
  }

  // ---------------------------------------------------------------- lengths

  function TagText(lex: Lexicon, tag: string): string { lex.lower(lex.trim(tag)) }

  function Blanks(lex: Lexicon, tags: seq<string>): nat {
    if tags == [] then 0 else (if TagText(lex, tags[0]) == "" then 1 else 0) + Blanks(lex, tags[1..])
  }

  lemma {:induction false} TagTotal(lex: Lexicon, tags: seq<string>)
    ensures |TagTokens(lex, tags)| + Blanks(lex, tags) == |tags|
  {
    if tags != [] { TagTotal(lex, tags[1..]); }
  }

  /** The length of a document: its words and its tags that are not blank, but at least one. */
  lemma LengthIs(lex: Lexicon, doc: Doc)
    ensures var n := |RunsFrom(lex, lex.lower(doc.text), x => Counts(lex, x), 0)| + |doc.tags| - Blanks(lex, doc.tags);
            DocLen(lex, doc) == if n == 0 then 1 else n
  {
    TokenTotal(lex, doc.text);
    TagTotal(lex, doc.tags);
  }

  lemma {:induction false} TotalConcat(lex: Lexicon, a: seq<Doc>, b: seq<Doc>)
    ensures TotalLen(lex, a + b) == TotalLen(lex, a) + TotalLen(lex, b)
  {
    if b == [] {
      assert a + b == a;
    } else {
      TotalConcat(lex, a, b[..|b| - 1]);
      assert (a + b)[..|a + b| - 1] == a + b[..|b| - 1];
    }
  }

  lemma AverageIs(lex: Lexicon, docs: seq<Doc>)
    ensures docs != [] ==> AverageLen(lex, docs) == TotalLen(lex, docs) as real / |docs| as real
    ensures docs == [] ==> AverageLen(lex, docs) == 0.0 && TotalLen(lex, docs) == 0
  {
  }

  lemma MeanTimes(mean: real, total: real, n: real)
    requires n == 0.0 || mean == total / n
    requires n == 0.0 ==> mean == 0.0 && total == 0.0
    ensures mean * n == total
  {
  }

  lemma TimesCount(lex: Lexicon, docs: seq<Doc>)
    ensures AverageLen(lex, docs) * |docs| as real == TotalLen(lex, docs) as real
  {
    AverageIs(lex, docs);
    MeanTimes(AverageLen(lex, docs), TotalLen(lex, docs) as real, |docs| as real);
  }

  /** The average is a mean: of one document it is that one's length, and of two collections together
      each counts by its size. */
  lemma AverageIsMean(lex: Lexicon, doc: Doc, a: seq<Doc>, b: seq<Doc>)
    ensures AverageLen(lex, [doc]) == DocLen(lex, doc) as real
    ensures AverageLen(lex, a + b) * |a + b| as real
         == AverageLen(lex, a) * |a| as real + AverageLen(lex, b) * |b| as real
  {
    TotalConcat(lex, a, b);
    TimesCount(lex, a);
    TimesCount(lex, b);
    TimesCount(lex, a + b);
    assert [doc][..0] == [];
    assert TotalLen(lex, [doc]) == DocLen(lex, doc);
    TimesCount(lex, [doc]);
  }

  // ---------------------------------------------------------------- found

  /** A document is eligible exactly when it passes the filters and has a word of the query. */
  lemma EligibleIff(lex: Lexicon, query: string, f: Filter, doc: Doc)
    requires !lex.alnum(':')
    ensures Eligible(lex, QueryTokens(lex, query), f, doc) <==>
            Passes(f, doc) && exists t: string :: HasWord(lex, query, t) && HasWord(lex, doc.text, t)
  {
    var terms := QueryTokens(lex, query);
    if SharesTerm(lex, terms, doc) {
      var i :| 0 <= i < |terms| && Tf(lex, doc, terms[i]) > 0;
      TagsNeverMatch(lex, doc, query, terms[i]);
      TokenIff(lex, query, terms[i]);
      TokenIff(lex, doc.text, terms[i]);
      assert HasWord(lex, query, terms[i]) && HasWord(lex, doc.text, terms[i]);
    }
    if exists t: string :: HasWord(lex, query, t) && HasWord(lex, doc.text, t) {
      var t :| HasWord(lex, query, t) && HasWord(lex, doc.text, t);
      TokenIff(lex, query, t);
      TokenIff(lex, doc.text, t);
      var i :| 0 <= i < |terms| && terms[i] == t;
      assert multiset(IndexTokens(lex, doc)) == multiset(Tokenize(lex, doc.text)) + multiset(TagTokens(lex, doc.tags));
      assert Tf(lex, doc, terms[i]) > 0;
    }
  }

  /** With room for all documents, a search finds every document that passes the filters and has a word
      of the query. */
  lemma SharedWordIsFound(lex: Lexicon, docs: seq<Doc>, score: seq<real>, query: string, f: Filter, limit: nat,
                          out: seq<SearchResult>, d: nat)
    requires !lex.alnum(':') && |score| == |docs| <= limit && d < |docs|
    requires TopResults(docs, score, Eligibles(lex, docs, QueryTokens(lex, query), f), limit, out)
    requires Passes(f, docs[d]) && exists t: string :: HasWord(lex, query, t) && HasWord(lex, docs[d].text, t)
    ensures exists i :: 0 <= i < |out| && out[i].doc == docs[d]
  {
    var ok := Eligibles(lex, docs, QueryTokens(lex, query), f);
    EligibleIff(lex, query, f, docs[d]);
    var hits: seq<Hit> :| IsTop(score, ok, limit, hits) && IsRendered(docs, hits, out);
    if !Listed(hits, d) { FullHitsListAll(score, ok, limit, hits, d); }
    var i: int :| 0 <= i < |hits| && hits[i].id == d;
    assert out[i].doc == docs[d];
  }

  lemma FullHitsListAll(score: seq<real>, ok: seq<bool>, limit: nat, hits: seq<Hit>, d: nat)
    requires |score| == |ok| <= limit && d < |ok| && ok[d] && IsTop(score, ok, limit, hits)
    ensures Listed(hits, d)
  {
    if !Listed(hits, d) { OneMissing(hits, |ok|, d); }
  }

  function UpTo(n: nat): (r: set<nat>)
    ensures |r| == n && forall k: nat :: k in r <==> k < n
  {
    if n == 0 then {} else UpTo(n - 1) + {n - 1}
  }

  lemma OneMissing(hits: seq<Hit>, n: nat, d: nat)
    requires forall i, j :: 0 <= i < j < |hits| ==> hits[i].id != hits[j].id
    requires (forall i :: 0 <= i < |hits| ==> hits[i].id < n) && d < n && !Listed(hits, d)
    ensures |hits| < n
  {
    var ids := Ids(hits);
    var others := UpTo(n) - {d};
    assert ids <= others;
    assert others == ids + (others - ids);
    assert |ids| <= |others|;
  }

  lemma {:induction false} Ids(hits: seq<Hit>) returns (ids: set<nat>)
    requires forall i, j :: 0 <= i < j < |hits| ==> hits[i].id != hits[j].id
    ensures |ids| == |hits| && forall k: nat :: k in ids <==> Listed(hits, k)
  {
    if hits == [] {
      ids := {};
    } else {
      var front := hits[..|hits| - 1];
      var rest := Ids(front);
      ids := rest + {hits[|hits| - 1].id};
      forall k: nat ensures Listed(hits, k) <==> Listed(front, k) || k == hits[|hits| - 1].id {
        assert forall i :: 0 <= i < |front| ==> front[i] == hits[i];
      }
    }
  }

  /** With room for all documents, every memory item that has a word of the query is found among the memory
      items, and every message below the cutoff that has one among the messages. */
  lemma SessionIsFound(lex: Lexicon, docs: seq<Doc>, score: seq<real>, query: string, t: string, limit: nat,
                       out: seq<SearchResult>, cutoff: Option<nat>, d: nat, kind: DocKind)
    requires !lex.alnum(':') && |score| == |docs| <= limit && d < |docs|
    requires TopResults(docs, score, Eligibles(lex, docs, QueryTokens(lex, query), Filter(Some(kind), cutoff)), limit,
                        out)
    requires HasWord(lex, query, t) && HasWord(lex, docs[d].text, t)
    requires (kind == Memory && exists item :: docs[d] == MemoryDoc(item))
             || (kind == Message && exists i: nat, msg ::
                   docs[d] == MessageDoc(i, msg) && (cutoff.Some? ==> i < cutoff.value))
    ensures exists i :: 0 <= i < |out| && out[i].doc == docs[d]
  {
    SharedWordIsFound(lex, docs, score, query, Filter(Some(kind), cutoff), limit, out, d);
  }

  // ---------------------------------------------------------------- message ids

  /** A numeral read digit by digit. */
  function Numeral(s: string): int {
    if s == [] then 0 else 10 * Numeral(s[..|s| - 1]) + (s[|s| - 1] as int - '0' as int)
  }

  lemma {:induction false} DecimalReads(n: nat)
    ensures Numeral(Decimal(n)) == n && Decimal(n) != "" && (n > 0 ==> Decimal(n)[0] != '0')
    ensures forall c :: c in Decimal(n) ==> '0' <= c <= '9'
  {
    var front, last := if n < 10 then "" else Decimal(n / 10), "0123456789"[n % 10];
    if n >= 10 { DecimalReads(n / 10); }
    DigitReads(n % 10);
    NumeralSnoc(front, last);
    assert Decimal(n) == front + [last];
  }

  lemma NumeralSnoc(s: string, c: char)
    ensures Numeral(s + [c]) == 10 * Numeral(s) + (c as int - '0' as int)
  {
    assert (s + [c])[..|s|] == s;
  }

  lemma DigitReads(n: nat)
    requires n < 10
    ensures "0123456789"[n] as int == '0' as int + n && '0' <= "0123456789"[n] <= '9'
  {
  }

  /** Every message document has an id of its own, which ends in the message's index. */
  lemma MessageIds(i: nat, a: ChatMessage, j: nat, b: ChatMessage)
    ensures MessageDoc(i, a).id[..4] == "msg:" && Numeral(MessageDoc(i, a).id[4..]) == i
    ensures MessageDoc(i, a).id == MessageDoc(j, b).id ==> i == j
  {
    DecimalReads(i);
    DecimalReads(j);
    assert ("msg:" + Decimal(i))[4..] == Decimal(i) && ("msg:" + Decimal(j))[4..] == Decimal(j);
  }

  // ---------------------------------------------------------------- what a score adds up

  lemma {:induction false} ScoreConcat(ln: real -> real, lex: Lexicon, docs: seq<Doc>, a: seq<string>, b: seq<string>,
                                       doc: Doc)
    ensures Score(ln, lex, docs, a + b, doc) == Score(ln, lex, docs, a, doc) + Score(ln, lex, docs, b, doc)
  {
    if b == [] {
      assert a + b == a;
    } else {
      ScoreConcat(ln, lex, docs, a, b[..|b| - 1], doc);
      assert (a + b)[..|a + b| - 1] == a + b[..|b| - 1];
    }
  }

  lemma {:induction false} PositivesCount(fs: seq<nat>) returns (ds: set<nat>)
    ensures |ds| == Positives(fs) && forall d: nat :: d in ds <==> d < |fs| && fs[d] > 0
  {
    if fs == [] {
      ds := {};
    } else {
      var last := |fs| - 1;
      ds := PositivesCount(fs[..last]);
      if fs[last] > 0 { ds := ds + {last}; }
    }
  }

  /** The documents that contain a term, each once. */
  function Containing(lex: Lexicon, docs: seq<Doc>, t: string): set<nat> {
    set d: nat | d < |docs| && Tf(lex, docs[d], t) > 0
  }

  lemma DocFreqIs(lex: Lexicon, docs: seq<Doc>, t: string)
    ensures DocFreq(lex, docs, t) == |Containing(lex, docs, t)|
  {
    var ds := PositivesCount(Freqs(lex, docs, t));
    assert ds == Containing(lex, docs, t);
  }

  /** One term adds nothing to a document without it, and otherwise its contribution, with the numbers of
      documents and of documents that contain it, the frequency, the length and the average length, at
      least 1. */
  lemma OneTermScore(ln: real -> real, lex: Lexicon, docs: seq<Doc>, t: string, doc: Doc)
    ensures Tf(lex, doc, t) == 0 ==> Score(ln, lex, docs, [t], doc) == 0.0
    ensures Tf(lex, doc, t) > 0 ==>
              var avgdl := if AverageLen(lex, docs) < 1.0 then 1.0 else AverageLen(lex, docs);
              |Containing(lex, docs, t)| <= |docs| &&
              Score(ln, lex, docs, [t], doc)
              == Contribution(ln, |docs|, |Containing(lex, docs, t)|, Tf(lex, doc, t), DocLen(lex, doc), avgdl)
  {
    DocFreqIs(lex, docs, t);
    PostingsCount(Freqs(lex, docs, t));
    assert [t][..0] == [];
  }

  // ---------------------------------------------------------------- what is indexed

  /** A document carries what its item or message says. */
  lemma DocFields(item: MemoryItem, i: nat, msg: ChatMessage)
    ensures var d := MemoryDoc(item);
            d.kind == Memory && d.id == item.id && d.createdAtMs == item.createdAtMs && d.text == item.text
            && d.tags == item.tags
    ensures var d := MessageDoc(i, msg);
            d.kind == Message && d.createdAtMs == 0 && d.role == Some(msg.role) && d.msgIndex == Some(i)
            && d.text == msg.content && d.tags == []
  {
  }

  /** After a rebuild every memory item is indexed, and exactly the last messages up to the cap, if messages
      are indexed at all. */
  lemma RebuiltHolds(memory: seq<MemoryItem>, messages: seq<ChatMessage>, indexMessages: bool, maxMessages: nat, i: nat)
    ensures i < |memory| ==> MemoryDoc(memory[i]) in Rebuilt(memory, messages, indexMessages, maxMessages)
    ensures i < |messages| ==> (MessageDoc(i, messages[i]) in Rebuilt(memory, messages, indexMessages, maxMessages)
                                <==> indexMessages && i + maxMessages >= |messages|)
  {
    var start := IndexStart(|messages|, indexMessages, maxMessages);
    var a, b := MemoryDocs(memory), MessageDocs(messages, start);
    if i < |memory| { assert a[i] in a; }
    if i < |messages| {
      if start <= i { assert b[i - start] == MessageDoc(i, messages[i]); }
      if MessageDoc(i, messages[i]) in a + b {
        var k :| 0 <= k < |a + b| && (a + b)[k] == MessageDoc(i, messages[i]);
        assert (a + b)[k] == if k < |a| then MemoryDoc(memory[k])
                             else MessageDoc(start + (k - |a|), messages[start + (k - |a|)]);
      }
    }
  }
}
