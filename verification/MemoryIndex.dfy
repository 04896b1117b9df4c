/** What the client's recall index should hold, read off the documents one by one. */
module MemoryIndex {
  import opened Bytes

  datatype DocKind = Memory | Message

  datatype Doc = Doc(
    kind: DocKind,
    id: string,
    createdAtMs: int,
    role: Option<string>,
    msgIndex: Option<nat>,
    text: string,
    tags: seq<string>)

  // ---------------------------------------------------------------- tokens

  /** The Unicode tables and the stopword list, left arbitrary. */
  datatype Lexicon = Lexicon(lower: string -> string, trim: string -> string, alnum: char -> bool, stop: string -> bool)

  /** Split at every character that is not alphanumeric; `word` is the word being read. */
  function Split(lex: Lexicon, s: string, word: string): seq<string>
    decreases |s|
  {
    if s == [] then [word]
    else if lex.alnum(s[0]) then Split(lex, s[1..], word + [s[0]])
    else [word] + Split(lex, s[1..], [])
  }

  function Keep(lex: Lexicon, words: seq<string>): seq<string> {
    if words == [] then []
    else (if ByteLen(words[0]) < 3 || lex.stop(words[0]) then [] else [words[0]]) + Keep(lex, words[1..])
  }

  function Tokenize(lex: Lexicon, s: string): seq<string> {
    Keep(lex, Split(lex, lex.lower(s), []))
  }

  function TagTokens(lex: Lexicon, tags: seq<string>): seq<string> {
    if tags == [] then []
    else (var tag := lex.lower(lex.trim(tags[0])); if tag == [] then [] else ["tag:" + tag]) + TagTokens(lex, tags[1..])
  }

  function IndexTokens(lex: Lexicon, doc: Doc): seq<string> {
    Tokenize(lex, doc.text) + TagTokens(lex, doc.tags)
  }

  /** The words of a query, each once, in order of first occurrence. */
  function QueryTokens(lex: Lexicon, q: string): seq<string> {
    Dedup(Tokenize(lex, q))
  }

  function Dedup(ts: seq<string>): (r: seq<string>)
    ensures forall t :: t in r <==> t in ts
  {
    if ts == [] then []
    else
      var rest := Dedup(ts[..|ts| - 1]);
      if ts[|ts| - 1] in ts[..|ts| - 1] then rest else rest + [ts[|ts| - 1]]
  }

  predicate Distinct(ts: seq<string>) {
    forall i, j :: 0 <= i < j < |ts| ==> ts[i] != ts[j]
  }

  lemma {:induction false} DedupDistinct(ts: seq<string>)
    ensures Distinct(Dedup(ts))
  {
    if ts != [] {
      var rest, last := Dedup(ts[..|ts| - 1]), ts[|ts| - 1];
      DedupDistinct(ts[..|ts| - 1]);
      if last !in ts[..|ts| - 1] {
        assert last !in rest;
        assert Distinct(rest + [last]);
      }
    }
  }

  // ---------------------------------------------------------------- the naive view of the documents

  function Tf(lex: Lexicon, doc: Doc, t: string): nat {
    multiset(IndexTokens(lex, doc))[t]
  }

  function DocLen(lex: Lexicon, doc: Doc): nat {
    if |IndexTokens(lex, doc)| == 0 then 1 else |IndexTokens(lex, doc)|
  }

  function DocLens(lex: Lexicon, docs: seq<Doc>): (r: seq<nat>)
    ensures |r| == |docs| && forall i :: 0 <= i < |docs| ==> r[i] == DocLen(lex, docs[i])
  {
    seq(|docs|, i requires 0 <= i < |docs| => DocLen(lex, docs[i]))
  }

  /** How often a term occurs in each document. */
  function Freqs(lex: Lexicon, docs: seq<Doc>, t: string): (r: seq<nat>)
    ensures |r| == |docs| && forall i :: 0 <= i < |docs| ==> r[i] == Tf(lex, docs[i], t)
  {
    seq(|docs|, i requires 0 <= i < |docs| => Tf(lex, docs[i], t))
  }

  function Positives(fs: seq<nat>): nat {
    if fs == [] then 0 else Positives(fs[..|fs| - 1]) + if fs[|fs| - 1] > 0 then 1 else 0
  }

  /** The number of documents that contain a term. */
  function DocFreq(lex: Lexicon, docs: seq<Doc>, t: string): nat {
    Positives(Freqs(lex, docs, t))
  }

  function TotalLen(lex: Lexicon, docs: seq<Doc>): nat {
    if docs == [] then 0 else TotalLen(lex, docs[..|docs| - 1]) + DocLen(lex, docs[|docs| - 1])
  }

  function AverageLen(lex: Lexicon, docs: seq<Doc>): real {
    if docs == [] then 0.0 else TotalLen(lex, docs) as real / |docs| as real
  }

  /** The posting list of a term, from its frequencies: who has it, and how often. */
  function Postings(fs: seq<nat>): seq<(nat, nat)> {
    if fs == [] then []
    else
      var last := |fs| - 1;
      Postings(fs[..last]) + if fs[last] > 0 then [(last, fs[last])] else []
  }

  lemma {:induction false} PostingsCount(fs: seq<nat>)
    ensures |Postings(fs)| == Positives(fs) <= |fs|
  {
    if fs != [] { PostingsCount(fs[..|fs| - 1]); }
  }

  lemma {:induction false} PostingsSound(fs: seq<nat>, p: nat)
    requires p < |Postings(fs)|
    ensures Postings(fs)[p].0 < |fs| && Postings(fs)[p].1 == fs[Postings(fs)[p].0] > 0
  {
    if p < |Postings(fs[..|fs| - 1])| { PostingsSound(fs[..|fs| - 1], p); }
  }

  lemma {:induction false} PostingsOrdered(fs: seq<nat>, p: nat, q: nat)
    requires p < q < |Postings(fs)|
    ensures Postings(fs)[p].0 < Postings(fs)[q].0
  {
    PostingsSound(fs[..|fs| - 1], p);
    if q < |Postings(fs[..|fs| - 1])| { PostingsOrdered(fs[..|fs| - 1], p, q); }
  }

  lemma {:induction false} PostingsComplete(fs: seq<nat>, d: nat)
    requires d < |fs| && fs[d] > 0
    ensures (d, fs[d]) in Postings(fs)
  {
    if d < |fs| - 1 { PostingsComplete(fs[..|fs| - 1], d); }
  }

  /** A posting list holds a pair exactly when the term occurs that often, more than never, in that
      document; each document once; so there are never more than there are documents. */
  lemma {:induction false} PostingsExact(fs: seq<nat>)
    ensures var ps := Postings(fs);
            && |ps| == Positives(fs) <= |fs|
            && (forall d: nat, f: nat :: (d, f) in ps <==> d < |fs| && f == fs[d] > 0)
            && (forall p, q :: 0 <= p < q < |ps| ==> ps[p].0 < ps[q].0)
  {
    var ps := Postings(fs);
    PostingsCount(fs);
    forall d: nat, f: nat ensures (d, f) in ps <==> d < |fs| && f == fs[d] > 0 {
      if (d, f) in ps {
        var p :| 0 <= p < |ps| && ps[p] == (d, f);
        PostingsSound(fs, p);
      }
      if d < |fs| && f == fs[d] > 0 { PostingsComplete(fs, d); }
    }
    forall p, q | 0 <= p < q < |ps| ensures ps[p].0 < ps[q].0 { PostingsOrdered(fs, p, q); }
  }

  // ---------------------------------------------------------------- BM25

  const K1: real := 1.2
  const B: real := 0.75

  /** All that is assumed about the logarithm. */
  ghost predicate IsLog(ln: real -> real) {
    ln(1.0) == 0.0 && forall x, y :: 0.0 < x < y ==> ln(x) < ln(y)
  }

  function IdfArgument(n: nat, df: nat): real
    requires df <= n
  {
    ((n - df) as real + 0.5) / (df as real + 0.5) + 1.0
  }

  function Denominator(tf: nat, dl: nat, avgdl: real): real
    requires avgdl >= 1.0
  {
    tf as real + K1 * (1.0 - B + B * (dl as real / avgdl))
  }

  lemma DenominatorPositive(tf: nat, dl: nat, avgdl: real)
    requires avgdl >= 1.0
    ensures Denominator(tf, dl, avgdl) > 0.0
  {
    assert dl as real / avgdl >= 0.0;
  }

  function Contribution(ln: real -> real, n: nat, df: nat, tf: nat, dl: nat, avgdl: real): real
    requires df <= n && avgdl >= 1.0
  {
    DenominatorPositive(tf, dl, avgdl);
    ln(IdfArgument(n, df)) * (tf as real * (K1 + 1.0) / Denominator(tf, dl, avgdl))
  }

  function Max1(x: real): (r: real)
    ensures r >= 1.0
  {
    if x < 1.0 then 1.0 else x
  }

  /** What one query term adds to the score of `doc` within the collection `docs`. */
  function TermScore(ln: real -> real, lex: Lexicon, docs: seq<Doc>, t: string, doc: Doc): real {
    if Tf(lex, doc, t) == 0 then 0.0
    else
      PostingsCount(Freqs(lex, docs, t));
      Contribution(ln, |docs|, DocFreq(lex, docs, t), Tf(lex, doc, t), DocLen(lex, doc), Max1(AverageLen(lex, docs)))
  }

  /** The brute-force score: every term against the document. */
  function Score(ln: real -> real, lex: Lexicon, docs: seq<Doc>, terms: seq<string>, doc: Doc): real {
    if terms == [] then 0.0
    else Score(ln, lex, docs, terms[..|terms| - 1], doc) + TermScore(ln, lex, docs, terms[|terms| - 1], doc)
  }

  predicate SharesTerm(lex: Lexicon, terms: seq<string>, doc: Doc) {
    exists i :: 0 <= i < |terms| && Tf(lex, doc, terms[i]) > 0
  }

  lemma ContributionPositive(ln: real -> real, n: nat, df: nat, tf: nat, dl: nat, avgdl: real)
    requires IsLog(ln) && df <= n && tf > 0 && avgdl >= 1.0
    ensures Contribution(ln, n, df, tf, dl, avgdl) > 0.0
  {
    var x, y := (n - df) as real + 0.5, df as real + 0.5;
    assert x / y > 0.0;
    assert ln(IdfArgument(n, df)) > ln(1.0);
    DenominatorPositive(tf, dl, avgdl);
    PositiveQuotient(tf as real * (K1 + 1.0), Denominator(tf, dl, avgdl));
    PositiveProduct(ln(IdfArgument(n, df)), tf as real * (K1 + 1.0) / Denominator(tf, dl, avgdl));
  }

  lemma PositiveQuotient(x: real, y: real)
    requires x > 0.0 && y > 0.0
    ensures x / y > 0.0
  {
  }

  lemma PositiveProduct(x: real, y: real)
    requires x > 0.0 && y > 0.0
    ensures x * y > 0.0
  {
  }

  /** A document scores above zero exactly when it shares a term with the query. */
  lemma {:induction false} ScorePositive(ln: real -> real, lex: Lexicon, docs: seq<Doc>, terms: seq<string>, doc: Doc)
    requires IsLog(ln)
    ensures Score(ln, lex, docs, terms, doc) >= 0.0
    ensures Score(ln, lex, docs, terms, doc) > 0.0 <==> SharesTerm(lex, terms, doc)
  {
    if terms != [] {
      var last := |terms| - 1;
      ScorePositive(ln, lex, docs, terms[..last], doc);
      if Tf(lex, doc, terms[last]) > 0 {
        PostingsCount(Freqs(lex, docs, terms[last]));
        ContributionPositive(ln, |docs|, DocFreq(lex, docs, terms[last]), Tf(lex, doc, terms[last]), DocLen(lex, doc),
                             Max1(AverageLen(lex, docs)));
      } else if SharesTerm(lex, terms, doc) {
        var i :| 0 <= i < |terms| && Tf(lex, doc, terms[i]) > 0;
        assert terms[..last][i] == terms[i];
      }
      if SharesTerm(lex, terms[..last], doc) {
        var i :| 0 <= i < last && Tf(lex, doc, terms[..last][i]) > 0;
        assert terms[i] == terms[..last][i];
      }
    }
  }

  /** The contribution with its constants multiplied out. */
  lemma ContributionClosedForm(ln: real -> real, n: nat, df: nat, tf: nat, dl: nat, avgdl: real)
    requires df <= n && avgdl >= 1.0 && tf > 0
    ensures 10.0 * tf as real * avgdl + 3.0 * avgdl + 9.0 * dl as real > 0.0
    ensures Contribution(ln, n, df, tf, dl, avgdl)
         == ln((2 * n + 2) as real / (2 * df + 1) as real)
            * (22.0 * tf as real * avgdl / (10.0 * tf as real * avgdl + 3.0 * avgdl + 9.0 * dl as real))
  {
    var t, d := tf as real, Denominator(tf, dl, avgdl);
    DenominatorPositive(tf, dl, avgdl);
    IdfClosedForm(n, df);
    PositiveProduct(t, avgdl);
    var x := dl as real / avgdl;
    assert x * avgdl == dl as real;
    assert d == t + 0.3 + 0.9 * x;
    LengthScaled(t, x, avgdl, dl as real);
    SameQuotient(2.2 * t, d, 10.0 * avgdl);
  }

  lemma LengthScaled(t: real, x: real, avgdl: real, dl: real)
    requires x * avgdl == dl
    ensures (t + 0.3 + 0.9 * x) * (10.0 * avgdl) == 10.0 * t * avgdl + 3.0 * avgdl + 9.0 * dl
  {
  }

  lemma SameQuotient(a: real, b: real, k: real)
    requires b > 0.0 && k > 0.0
    ensures b * k > 0.0 && a / b == a * k / (b * k)
  {
    PositiveProduct(b, k);
    var q := a / b;
    assert q * b == a;
    assert q * (b * k) == a * k;
  }

  lemma AddOne(x: real, y: real)
    requires y > 0.0
    ensures x / y + 1.0 == (x + y) / y
  {
    var q, r := x / y, (x + y) / y;
    assert q * y == x && r * y == x + y;
    assert (q + 1.0) * y == x + y;
    if q + 1.0 < r { Scaled(q + 1.0, r, y); } else if r < q + 1.0 { Scaled(r, q + 1.0, y); }
  }

  lemma IdfClosedForm(n: nat, df: nat)
    requires df <= n
    ensures IdfArgument(n, df) == (2 * n + 2) as real / (2 * df + 1) as real
  {
    var x, y := (n - df) as real + 0.5, df as real + 0.5;
    SameQuotient(x + y, y, 2.0);
    AddOne(x, y);
  }

  // ---------------------------------------------------------------- what the score rewards

  lemma CrossMultiply(a: real, b: real, c: real, d: real)
    requires b > 0.0 && d > 0.0 && a * d < c * b
    ensures a / b < c / d
  {
    var x, y := a / b, c / d;
    assert x * b == a && y * d == c;
    if x >= y { Scaled(y, x, b * d); }
  }

  lemma Scaled(x: real, y: real, k: real)
    requires k > 0.0
    ensures x <= y ==> x * k <= y * k
    ensures x < y ==> x * k < y * k
  {
  }

  /** Rarer terms weigh more, further occurrences add, and longer documents count less. */
  lemma ContributionOrder(ln: real -> real, n: nat, df: nat, df': nat, tf: nat, tf': nat, dl: nat, dl': nat,
                          avgdl: real)
    requires IsLog(ln) && df' <= df <= n && 0 < tf <= tf' && dl' <= dl && avgdl >= 1.0
    ensures Contribution(ln, n, df, tf, dl, avgdl) <= Contribution(ln, n, df', tf', dl', avgdl)
    ensures df' < df || tf < tf' || dl' < dl ==>
            Contribution(ln, n, df, tf, dl, avgdl) < Contribution(ln, n, df', tf', dl', avgdl)
  {
    IdfOrder(ln, n, df, df');
    SaturationOrder(tf, tf', dl, dl', avgdl);
    ProductOrder(ln(IdfArgument(n, df)), ln(IdfArgument(n, df')), Saturation(tf, dl, avgdl),
                 Saturation(tf', dl', avgdl));
  }

  function Saturation(tf: nat, dl: nat, avgdl: real): real
    requires avgdl >= 1.0
  {
    DenominatorPositive(tf, dl, avgdl);
    tf as real * (K1 + 1.0) / Denominator(tf, dl, avgdl)
  }

  lemma ProductOrder(x: real, y: real, u: real, v: real)
    requires 0.0 < x <= y && 0.0 < u <= v
    ensures x * u <= y * v && (x < y || u < v ==> x * u < y * v)
  {
    Scaled(x, y, u);
    Scaled(u, v, y);
  }

  lemma IdfOrder(ln: real -> real, n: nat, df: nat, df': nat)
    requires IsLog(ln) && df' <= df <= n
    ensures 0.0 < ln(IdfArgument(n, df)) <= ln(IdfArgument(n, df'))
    ensures df' < df ==> ln(IdfArgument(n, df)) < ln(IdfArgument(n, df'))
  {
    var x, y := (n - df) as real + 0.5, df as real + 0.5;
    PositiveQuotient(x, y);
    assert ln(IdfArgument(n, df)) > ln(1.0);
    if df' < df {
      var x', y' := (n - df') as real + 0.5, df' as real + 0.5;
      Scaled(y', y, x);
      Scaled(x, x', y);
      CrossMultiply(x, y, x', y');
    }
  }

  lemma SaturationOrder(tf: nat, tf': nat, dl: nat, dl': nat, avgdl: real)
    requires 0 < tf <= tf' && dl' <= dl && avgdl >= 1.0
    ensures 0.0 < Saturation(tf, dl, avgdl) <= Saturation(tf', dl', avgdl)
    ensures tf < tf' || dl' < dl ==> Saturation(tf, dl, avgdl) < Saturation(tf', dl', avgdl)
  {
    DenominatorPositive(tf, dl, avgdl);
    DenominatorPositive(tf', dl', avgdl);
    var c, c' := Denominator(tf, dl, avgdl) - tf as real, Denominator(tf', dl', avgdl) - tf' as real;
    LengthPart(dl, dl', avgdl);
    PositiveQuotient(tf as real * (K1 + 1.0), Denominator(tf, dl, avgdl));
    if tf < tf' || dl' < dl {
      CrossTerms(tf as real, tf' as real, c, c', K1 + 1.0);
      CrossMultiply(tf as real * (K1 + 1.0), tf as real + c, tf' as real * (K1 + 1.0), tf' as real + c');
    }
  }

  lemma LengthPart(dl: nat, dl': nat, avgdl: real)
    requires dl' <= dl && avgdl >= 1.0
    ensures 0.0 < K1 * (1.0 - B + B * (dl' as real / avgdl)) <= K1 * (1.0 - B + B * (dl as real / avgdl))
    ensures dl' < dl ==> K1 * (1.0 - B + B * (dl' as real / avgdl)) < K1 * (1.0 - B + B * (dl as real / avgdl))
  {
    var x, y := dl' as real / avgdl, dl as real / avgdl;
    assert x * avgdl == dl' as real && y * avgdl == dl as real;
    if dl' < dl { if x >= y { Scaled(y, x, avgdl); } }
    assert x >= 0.0;
  }

  lemma CrossTerms(a: real, b: real, c: real, d: real, k: real)
    requires 0.0 < a <= b && 0.0 < d <= c && k > 0.0 && (a < b || d < c)
    ensures a * k * (b + d) < b * k * (a + c)
  {
    Scaled(d, c, a);
    Scaled(a, b, c);
    assert a * d < b * c by { if a < b { Scaled(a, b, c); } else { Scaled(d, c, b); } }
    Scaled(a * d, b * c, k);
    assert a * k * (b + d) == k * (a * b) + k * (a * d);
    assert b * k * (a + c) == k * (a * b) + k * (b * c);
  }

  // ---------------------------------------------------------------- tags

  lemma {:induction false} SplitWordsAlnum(lex: Lexicon, s: string, word: string)
    requires forall c :: c in word ==> lex.alnum(c)
    ensures forall w, c :: w in Split(lex, s, word) && c in w ==> lex.alnum(c)
    decreases |s|
  {
    if s != [] {
      if lex.alnum(s[0]) { SplitWordsAlnum(lex, s[1..], word + [s[0]]); } else { SplitWordsAlnum(lex, s[1..], []); }
    }
  }

  lemma {:induction false} KeepSubset(lex: Lexicon, words: seq<string>)
    ensures forall w :: w in Keep(lex, words) ==> w in words
  {
    if words != [] { KeepSubset(lex, words[1..]); }
  }

  lemma {:induction false} TagTokensHaveColon(lex: Lexicon, tags: seq<string>)
    ensures forall t :: t in TagTokens(lex, tags) ==> ':' in t
  {
    if tags != [] {
      TagTokensHaveColon(lex, tags[1..]);
      assert "tag:"[3] == ':';
      assert forall s: string :: ("tag:" + s)[3] == ':';
    }
  }

  /** A query never matches a tag: the frequency of a query term is its frequency in the text. Tags
      only make a document longer. */
  lemma TagsNeverMatch(lex: Lexicon, doc: Doc, q: string, t: string)
    requires !lex.alnum(':') && t in QueryTokens(lex, q)
    ensures Tf(lex, doc, t) == multiset(Tokenize(lex, doc.text))[t]
  {
    var words := Split(lex, lex.lower(q), []);
    SplitWordsAlnum(lex, lex.lower(q), []);
    KeepSubset(lex, words);
    TagTokensHaveColon(lex, doc.tags);
    assert ':' !in t;
    assert t !in multiset(TagTokens(lex, doc.tags));
  }
}
