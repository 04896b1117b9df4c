/** What becomes of a placeholder that a later pass touched: swallowed whole, or split by a match inside
    it. Whether the text comes back then depends on which of the two keys is replaced first. And what
    becomes of one that stands for another original. */
module Touched {
  import opened Bytes
  import opened Redaction
  import opened RoundTrip

  // ---------------------------------------------------------------- one replacement

  /** No key starts at a bracket that is followed by another opening bracket. */
  lemma OpenIsNoKey(a: string, r: string, k: string)
    requires BracketFree(a) && Bracketed(k) && r != [] && r[0] == '<'
    ensures !(k <= "<" + a + r)
  {
    var t, n := "<" + a + r, |k| - 1;
    TokenTail(k);
    if n <= |a| {
      assert t[n] == a[n - 1] != k[n];
    } else {
      assert k[1 + |a|] == k[1..][|a|] != '<' == t[1 + |a|];
    }
  }

  /** A key passes over `<`, `a` and a token. */
  lemma ReplaceThroughOpen(a: string, r: string, k: string, v: string)
    requires BracketFree(a) && Bracketed(k) && r != [] && r[0] == '<'
    ensures Replace("<" + a + r, k, v) == "<" + a + Replace(r, k, v)
  {
    OpenIsNoKey(a, r, k);
    ReplaceStep("<" + a + r, k, v);
    AfterFirst('<', a, r);
    ReplacePlain(a, r, k, v);
    Assoc("<", a, Replace(r, k, v));
  }

  lemma AfterFirst(c: char, a: string, r: string)
    ensures ([c] + a + r)[0] == c && ([c] + a + r)[1..] == a + r
  {
  }

  lemma NotPlain(x: string, p: string, y: string, u: string)
    requires BracketFree(u) && '<' in p
    ensures x + p + y != u
  {
    var i :| 0 <= i < |p| && p[i] == '<';
    assert (x + p + y)[|x| + i] == '<';
  }

  lemma PlainConcat(a: string, b: string)
    requires BracketFree(a) && BracketFree(b)
    ensures BracketFree(a + b)
  {
  }

  /** One token in plain text. */
  lemma ReplaceOne(x: string, p: string, y: string, v: string)
    requires BracketFree(x) && BracketFree(y) && Bracketed(p)
    ensures Replace(x + p + y, p, v) == x + v + y
  {
    assert x + p + y == x + (p + y);
    ReplacePlain(x, p + y, p, v);
    ReplacePrefix(p + y, p, v);
    assert (p + y)[|p|..] == y;
    ReplaceAbsent(y, p, v);
    assert x + (v + y) == x + v + y;
  }

  lemma ReplaceOther(x: string, p: string, y: string, k: string, v: string)
    requires BracketFree(x) && BracketFree(y) && Bracketed(p) && Bracketed(k) && p != k
    ensures Replace(x + p + y, k, v) == x + p + y
  {
    assert x + p + y == x + (p + y);
    ReplacePlain(x, p + y, k, v);
    ReplaceThroughToken(p, y, k, v);
    ReplaceAbsent(y, k, v);
  }

  lemma Nest(x: string, a: string, m: string, c: string, y: string)
    ensures x + (a + m + c) + y == x + a + m + (c + y)
  {
  }

  /** Between plain texts, a bracketed one is not a plain one. */
  lemma NestDiffers(x: string, a: string, p: string, c: string, y: string, m: string)
    requires BracketFree(x) && BracketFree(a) && BracketFree(m) && BracketFree(c) && BracketFree(y) && Bracketed(p)
    ensures x + (a + p + c) + y != x + (a + m + c) + y
  {
    Nest(x, a, p, c, y);
    Nest(x, a, m, c, y);
    PlainConcat(x, a);
    PlainConcat(c, y);
    PlainConcat(x + a, m);
    PlainConcat(x + a + m, c + y);
    NotPlain(x + a, p, c + y, x + a + m + (c + y));
  }

  lemma SplitShape(x: string, a: string, p: string, c: string, y: string)
    ensures x + ("<" + a + p + c + ">") + y == x + ("<" + a + (p + (c + ">" + y)))
  {
  }

  /** One key tried on a split placeholder. */
  lemma SplitReplace(x: string, y: string, a: string, c: string, inner: string, k: string, v: string)
    requires BracketFree(x) && BracketFree(y) && BracketFree(a) && BracketFree(c) && Bracketed(inner) && Bracketed(k)
    ensures Replace(x + ("<" + a + inner + c + ">") + y, k, v)
         == x + ("<" + a + (if k == inner then v else inner) + c + ">") + y
  {
    var tail := c + ">" + y;
    SplitShape(x, a, inner, c, y);
    SplitShape(x, a, if k == inner then v else inner, c, y);
    ReplacePlain(x, "<" + a + (inner + tail), k, v);
    ReplaceThroughOpen(a, inner + tail, k, v);
    ReplaceToken(inner, tail, k, v);
    NoOpening(tail, k, v);
  }

  lemma ReplaceToken(p: string, r: string, k: string, v: string)
    requires Bracketed(p) && Bracketed(k)
    ensures Replace(p + r, k, v) == (if k == p then v else p) + Replace(r, k, v)
  {
    if k == p {
      ReplacePrefix(p + r, k, v);
      assert (p + r)[|p|..] == r;
    } else {
      ReplaceThroughToken(p, r, k, v);
    }
  }

  lemma NoOpening(t: string, k: string, v: string)
    requires Bracketed(k) && forall i :: 0 <= i < |t| ==> t[i] != '<'
    ensures Replace(t, k, v) == t
  {
    assert t + [] == t;
    ReplaceThrough(t, [], k, v);
  }

  lemma ReplacePlain(x: string, r: string, k: string, v: string)
    requires BracketFree(x) && Bracketed(k)
    ensures Replace(x + r, k, v) == x + Replace(r, k, v)
  {
    ReplaceThrough(x, r, k, v);
  }

  lemma ReplaceAbsent(y: string, k: string, v: string)
    requires BracketFree(y) && Bracketed(k)
    ensures Replace(y, k, v) == y
  {
    assert y + [] == y;
    ReplaceThrough(y, [], k, v);
  }

  // ---------------------------------------------------------------- many replacements

  predicate Keys(keys: seq<string>) {
    (forall k :: k in keys ==> Bracketed(k)) && forall i, j :: 0 <= i < j < |keys| ==> keys[i] != keys[j]
  }

  lemma KeysTail(keys: seq<string>)
    requires Keys(keys) && keys != []
    ensures Keys(keys[1..]) && Bracketed(keys[0]) && keys[0] !in keys[1..]
  {
  }

  lemma {:induction false} PlainStays(t: string, keys: seq<string>, rev: map<string, string>)
    requires BracketFree(t) && Keys(keys) && forall k :: k in keys ==> k in rev
    ensures Sequential(t, keys, rev) == t
    decreases |keys|
  {
    if keys != [] {
      KeysTail(keys);
      ReplaceAbsent(t, keys[0], rev[keys[0]]);
      PlainStays(t, keys[1..], rev);
    }
  }

  /** A token in plain text is replaced when its turn comes, and nothing else is. */
  lemma {:induction false} OneToken(x: string, p: string, y: string, keys: seq<string>, rev: map<string, string>)
    requires BracketFree(x) && BracketFree(y) && Bracketed(p) && Keys(keys) && forall k :: k in keys ==> k in rev
    requires p in rev && BracketFree(rev[p])
    ensures Sequential(x + p + y, keys, rev) == if p in keys then x + rev[p] + y else x + p + y
    decreases |keys|
  {
    if keys != [] {
      KeysTail(keys);
      if keys[0] == p {
        ReplaceOne(x, p, y, rev[p]);
        PlainConcat(x, rev[p]);
        PlainConcat(x + rev[p], y);
        PlainStays(x + rev[p] + y, keys[1..], rev);
      } else {
        ReplaceOther(x, p, y, keys[0], rev[keys[0]]);
        OneToken(x, p, y, keys[1..], rev);
      }
    }
  }

  /** `q` comes before `p`. */
  predicate Before(keys: seq<string>, q: string, p: string)
    decreases |keys|
  {
    keys != [] && if keys[0] == q then p in keys[1..] else Before(keys[1..], q, p)
  }

  /** The later token, which holds the earlier one. */
  lemma {:induction false} OuterToken(x: string, q: string, y: string, a: string, p: string, c: string,
                                      keys: seq<string>, rev: map<string, string>)
    requires BracketFree(x) && BracketFree(y) && BracketFree(a) && BracketFree(c) && Bracketed(p) && Bracketed(q)
    requires Keys(keys) && (forall k :: k in keys ==> k in rev) && q in keys
    requires p in rev && BracketFree(rev[p]) && rev[q] == a + p + c
    ensures Sequential(x + q + y, keys, rev) == x + (a + (if Before(keys, q, p) then rev[p] else p) + c) + y
    decreases |keys|
  {
    KeysTail(keys);
    if keys[0] == q {
      ReplaceOne(x, q, y, a + p + c);
      Nest(x, a, p, c, y);
      Nest(x, a, rev[p], c, y);
      PlainConcat(x, a);
      PlainConcat(c, y);
      OneToken(x + a, p, c + y, keys[1..], rev);
    } else {
      ReplaceOther(x, q, y, keys[0], rev[keys[0]]);
      OuterToken(x, q, y, a, p, c, keys[1..], rev);
    }
  }

  /** The earlier token, split by the later one. */
  lemma {:induction false} SplitToken(x: string, y: string, a: string, m: string, c: string, q: string, p: string,
                                      keys: seq<string>, rev: map<string, string>)
    requires BracketFree(x) && BracketFree(y) && BracketFree(a) && BracketFree(m) && BracketFree(c)
    requires p == "<" + a + m + c + ">" && Bracketed(p) && Bracketed(q)
    requires Keys(keys) && (forall k :: k in keys ==> k in rev) && q in keys
    requires p in rev && BracketFree(rev[p]) && rev[q] == m
    ensures Sequential(x + ("<" + a + q + c + ">") + y, keys, rev) == x + (if Before(keys, q, p) then rev[p] else p) + y
    decreases |keys|
  {
    KeysTail(keys);
    SplitReplace(x, y, a, c, q, keys[0], rev[keys[0]]);
    if keys[0] == q {
      OneToken(x, p, y, keys[1..], rev);
    } else {
      SplitToken(x, y, a, m, c, q, p, keys[1..], rev);
    }
  }

  // ---------------------------------------------------------------- key orders

  /** All of `rest`, each once, longest first. */
  ghost predicate IsOrder(keys: seq<string>, rest: set<string>) {
    && |keys| == |rest| && (forall k :: k in keys <==> k in rest)
    && (forall i, j :: 0 <= i < j < |keys| ==> keys[i] != keys[j] && ByteLen(keys[i]) >= ByteLen(keys[j]))
  }

  lemma ConsOrder(m: string, keys: seq<string>, rest: set<string>)
    requires m in rest && (forall k :: k in rest ==> ByteLen(k) <= ByteLen(m)) && IsOrder(keys, rest - {m})
    ensures IsOrder([m] + keys, rest)
  {
    ConsMembers(m, keys, rest);
    var all := [m] + keys;
    forall i, j | 0 <= i < j < |all| ensures all[i] != all[j] && ByteLen(all[i]) >= ByteLen(all[j]) {
      ConsPair(m, keys, rest, i, j);
    }
  }

  lemma ConsMembers(m: string, keys: seq<string>, rest: set<string>)
    requires m in rest && |keys| == |rest - {m}| && forall k :: k in keys <==> k in rest - {m}
    ensures |[m] + keys| == |rest| && forall k :: k in [m] + keys <==> k in rest
  {
    assert rest == (rest - {m}) + {m};
    forall k ensures k in [m] + keys <==> k == m || k in keys {}
  }

  lemma ConsPair(m: string, keys: seq<string>, rest: set<string>, i: nat, j: nat)
    requires (forall k :: k in rest ==> ByteLen(k) <= ByteLen(m)) && IsOrder(keys, rest - {m}) && i < j < |keys| + 1
    ensures var all := [m] + keys; all[i] != all[j] && ByteLen(all[i]) >= ByteLen(all[j])
  {
    assert keys[j - 1] in keys;
  }

  lemma OrderExists(rest: set<string>) returns (keys: seq<string>)
    ensures IsOrder(keys, rest)
    decreases |rest|
  {
    if rest == {} {
      keys := [];
    } else {
      var m := LongestExists(rest);
      var others := OrderExists(rest - {m});
      ConsOrder(m, others, rest);
      keys := [m] + others;
    }
  }

  /** The hash order may put `p` first whenever `q` is not longer. */
  lemma OrderWithFirst(rest: set<string>, p: string, q: string) returns (keys: seq<string>)
    requires p in rest && q in rest && p != q && ByteLen(p) >= ByteLen(q)
    ensures IsOrder(keys, rest) && !Before(keys, q, p)
    decreases |rest|
  {
    var m := LongestExists(rest);
    if ByteLen(m) == ByteLen(p) {
      var others := OrderExists(rest - {p});
      ConsOrder(p, others, rest);
      keys := [p] + others;
      assert keys[1..] == others;
      NotBefore(others, q, p);
    } else {
      var others := OrderWithFirst(rest - {m}, p, q);
      ConsOrder(m, others, rest);
      keys := [m] + others;
      assert keys[1..] == others;
    }
  }

  lemma {:induction false} NotBefore(keys: seq<string>, q: string, p: string)
    requires p !in keys
    ensures !Before(keys, q, p)
    decreases |keys|
  {
    if keys != [] { NotBefore(keys[1..], q, p); }
  }

  /** A longer key always comes first. */
  lemma {:induction false} LongerFirst(keys: seq<string>, q: string, p: string)
    requires (forall i, j :: 0 <= i < j < |keys| ==> keys[i] != keys[j] && ByteLen(keys[i]) >= ByteLen(keys[j]))
    requires q in keys && p in keys && ByteLen(q) > ByteLen(p)
    ensures Before(keys, q, p)
    decreases |keys|
  {
    if keys[0] != q {
      FirstIsLongest(keys, q);
      LongerFirst(keys[1..], q, p);
    }
  }

  lemma FirstIsLongest(keys: seq<string>, q: string)
    requires forall i, j :: 0 <= i < j < |keys| ==> keys[i] != keys[j] && ByteLen(keys[i]) >= ByteLen(keys[j])
    requires q in keys
    ensures ByteLen(keys[0]) >= ByteLen(q)
  {
    var j :| 0 <= j < |keys| && keys[j] == q;
  }

  lemma {:induction false} EitherBefore(keys: seq<string>, q: string, p: string)
    requires p != q && q in keys && p in keys
    ensures Before(keys, q, p) || Before(keys, p, q)
    decreases |keys|
  {
    if keys[0] != q && keys[0] != p { EitherBefore(keys[1..], q, p); }
  }

  lemma {:induction false} NotBoth(keys: seq<string>, q: string, p: string)
    requires p != q && forall i, j :: 0 <= i < j < |keys| ==> keys[i] != keys[j]
    ensures !(Before(keys, q, p) && Before(keys, p, q))
    decreases |keys|
  {
    if keys != [] {
      var rest := keys[1..];
      assert keys[0] !in rest;
      if keys[0] == q { NotBefore(rest, p, q); }
      else if keys[0] == p { NotBefore(rest, q, p); }
      else { NotBoth(rest, q, p); }
    }
  }

  /** Every key order puts `q` before `p` exactly when `q` is the longer of the two. */
  lemma AlwaysBeforeIff(rev: map<string, string>, p: string, q: string)
    requires p in rev && q in rev && p != q
    ensures (forall keys :: KeyOrder(keys, rev) ==> Before(keys, q, p)) <==> ByteLen(q) > ByteLen(p)
  {
    if ByteLen(q) > ByteLen(p) {
      forall keys | KeyOrder(keys, rev) ensures Before(keys, q, p) { LongerFirst(keys, q, p); }
    } else {
      var keys := OrderWithFirst(rev.Keys, p, q);
      assert KeyOrder(keys, rev) && !Before(keys, q, p);
    }
  }

  /** No key order puts `q` before `p` exactly when `p` is the longer of the two. */
  lemma NeverBeforeIff(rev: map<string, string>, p: string, q: string)
    requires p in rev && q in rev && p != q
    ensures (forall keys :: KeyOrder(keys, rev) ==> !Before(keys, q, p)) <==> ByteLen(p) > ByteLen(q)
  {
    if ByteLen(p) > ByteLen(q) {
      forall keys | KeyOrder(keys, rev) ensures !Before(keys, q, p) {
        LongerFirst(keys, p, q);
        NotBoth(keys, q, p);
      }
    } else {
      var keys := OrderWithFirst(rev.Keys, q, p);
      EitherBefore(keys, q, p);
      assert KeyOrder(keys, rev) && Before(keys, q, p);
    }
  }

  lemma PlaceholderLength(digest: string -> string, tag: string, m: string)
    requires IsDigest(digest) && TagText(tag)
    ensures |Placeholder(digest, tag, m)| == |tag| + 19
    ensures ByteLen(Placeholder(digest, tag, m)) == |tag| + 19
  {
    PlaceholderShape(digest, tag, m);
    assert IsHex16(digest(tag + m));
    AsciiBytes(Placeholder(digest, tag, m));
  }

  // ---------------------------------------------------------------- what two passes make of the text

  /** A pass that finds one match. */
  ghost predicate FindsOnce(p: Pass, x: string, m: string, y: string)
    requires IsFinder(p.find)
  {
    Spans(p.find, x + m + y, 0) == [(|x|, |x| + |m|)]
  }

  lemma SingleSpan(t: string, x: string, m: string, y: string, ph: string -> string, b: Book, kind: Kind)
    requires t == x + m + y && m != []
    ensures Placed(t, 0, [(|x|, |x| + |m|)])
    ensures Rewrite(t, 0, [(|x|, |x| + |m|)], ph) == x + ph(m) + y
    ensures LearnAll(b, t, 0, [(|x|, |x| + |m|)], ph, kind) == Learn(b, ph(m), m, kind)
  {
    var spans := [(|x|, |x| + |m|)];
    assert t[0..|x|] == x && t[|x|..|x| + |m|] == m && t[|x| + |m|..] == y;
    assert spans[1..] == [];
    assert LearnAll(Learn(b, ph(m), m, kind), t, |x| + |m|, [], ph, kind) == Learn(b, ph(m), m, kind);
    RewriteFirst(t, 0, spans, ph);
  }

  lemma OncePass(digest: string -> string, b: Book, x: string, m: string, y: string, p: Pass)
    requires IsFinder(p.find) && FindsOnce(p, x, m, y)
    ensures PassText(digest, x + m + y, p) == x + Placeholder(digest, p.tag, m) + y
    ensures PassBook(digest, b, x + m + y, p) == Learn(b, Placeholder(digest, p.tag, m), m, p.kind)
  {
    SpansPlaced(p.find, x + m + y, 0);
    assert Placed(x + m + y, 0, [(|x|, |x| + |m|)]);
    SingleSpan(x + m + y, x, m, y, Ph(digest, p.tag), b, p.kind);
  }

  lemma TwoPasses(digest: string -> string, b: Book, t: string, p1: Pass, p2: Pass)
    requires GoodPass(p1) && GoodPass(p2)
    ensures GoodPasses([p1, p2])
    ensures Redacted(digest, b, t, [p1, p2])
         == var (u, c) := (PassText(digest, t, p1), PassBook(digest, b, t, p1));
            (PassText(digest, u, p2), PassBook(digest, c, u, p2))
  {
    var u, c := PassText(digest, t, p1), PassBook(digest, b, t, p1);
    assert [p1, p2][1..] == [p2] && [p2][1..] == [];
    assert GoodPasses([p2]) && GoodPasses([]);
    assert Redacted(digest, c, u, [p2]) == Redacted(digest, PassBook(digest, c, u, p2), PassText(digest, u, p2), []);
  }

  /** The two placeholders differ, and neither stands for anything else in the table. */
  predicate NoClash(b: Book, p: string, original: string, q: string, later: string) {
    p != q && (p in b.rev ==> b.rev[p] == original) && (q in b.rev ==> b.rev[q] == later)
  }

  /** After two passes, the second of which matched around the placeholder of the first. */
  lemma SwallowedText(digest: string -> string, b: Book, x: string, a: string, original: string, c: string, y: string,
                      p1: Pass, p2: Pass)
    requires IsDigest(digest) && GoodPass(p1) && GoodPass(p2)
    requires FindsOnce(p1, x + a, original, c + y)
    requires FindsOnce(p2, x, a + Placeholder(digest, p1.tag, original) + c, y)
    ensures GoodPasses([p1, p2])
    ensures var p := Placeholder(digest, p1.tag, original);
            var q := Placeholder(digest, p2.tag, a + p + c);
            Redacted(digest, b, x + (a + original + c) + y, [p1, p2])
            == (x + q + y, Learn(Learn(b, p, original, p1.kind), q, a + p + c, p2.kind))
  {
    var p := Placeholder(digest, p1.tag, original);
    Nest(x, a, original, c, y);
    Nest(x, a, p, c, y);
    TwoPasses(digest, b, x + (a + original + c) + y, p1, p2);
    OncePass(digest, b, x + a, original, c + y, p1);
    OncePass(digest, Learn(b, p, original, p1.kind), x, a + p + c, y, p2);
  }

  /** After two passes, the second of which matched inside the placeholder of the first. */
  lemma SplitText(digest: string -> string, b: Book, x: string, original: string, y: string, a: string, m: string,
                  c: string, p1: Pass, p2: Pass)
    requires IsDigest(digest) && GoodPass(p1) && GoodPass(p2) && FindsOnce(p1, x, original, y)
    requires Placeholder(digest, p1.tag, original) == "<" + a + m + c + ">"
    requires FindsOnce(p2, x + ("<" + a), m, (c + ">") + y)
    ensures GoodPasses([p1, p2])
    ensures var p := Placeholder(digest, p1.tag, original);
            var q := Placeholder(digest, p2.tag, m);
            Redacted(digest, b, x + original + y, [p1, p2])
            == (x + ("<" + a + q + c + ">") + y, Learn(Learn(b, p, original, p1.kind), q, m, p2.kind))
  {
    var p := Placeholder(digest, p1.tag, original);
    SplitNest(x, a, m, c, y);
    SplitNest(x, a, Placeholder(digest, p2.tag, m), c, y);
    TwoPasses(digest, b, x + original + y, p1, p2);
    OncePass(digest, b, x, original, y, p1);
    OncePass(digest, Learn(b, p, original, p1.kind), x + ("<" + a), m, (c + ">") + y, p2);
  }

  lemma SplitNest(x: string, a: string, m: string, c: string, y: string)
    ensures x + ("<" + a + m + c + ">") + y == x + ("<" + a) + m + ((c + ">") + y)
  {
  }

  // ---------------------------------------------------------------- the exact conditions

  /** Rehydration gives this text back, whatever order the hash map yields equally long keys in. */
  ghost predicate ComesBack(u: string, rev: map<string, string>, t: string) {
    forall keys :: KeyOrder(keys, rev) ==> Sequential(u, keys, rev) == t
  }

  /** Rehydration gives some other text, whatever the order. */
  ghost predicate IsLost(u: string, rev: map<string, string>, t: string) {
    forall keys :: KeyOrder(keys, rev) ==> Sequential(u, keys, rev) != t
  }

  /** The table after both passes: all keys are tokens. */
  lemma TableKeys(digest: string -> string, b: Book, tag: string, m: string, later: string, m': string, kind: Kind,
                  kind': Kind, keys: seq<string>)
    requires IsDigest(digest) && TagText(tag) && TagText(later) && GoodBook(b)
    requires var c := Learn(b, Placeholder(digest, tag, m), m, kind);
             KeyOrder(keys, Learn(c, Placeholder(digest, later, m'), m', kind').rev)
    ensures Keys(keys) && Placeholder(digest, tag, m) in keys && Placeholder(digest, later, m') in keys
  {
    PhBracketed(digest, tag, m);
    PhBracketed(digest, later, m');
  }

  /** A later match that swallows an earlier placeholder: redacting and rehydrating gives the text back
      in every order of the keys exactly when the later tag is the longer one, and in no order exactly
      when it is the shorter one; in a given order, exactly when the later placeholder is replaced first.
      Any good table may have been learnt before. */
  lemma SwallowedComesBackIff(digest: string -> string, b: Book, x: string, a: string, original: string, c: string,
                              y: string, p1: Pass, p2: Pass)
    requires IsDigest(digest) && GoodPass(p1) && GoodPass(p2) && GoodBook(b)
    requires BracketFree(x) && BracketFree(a) && BracketFree(original) && BracketFree(c) && BracketFree(y)
    requires FindsOnce(p1, x + a, original, c + y)
    requires FindsOnce(p2, x, a + Placeholder(digest, p1.tag, original) + c, y)
    requires var p := Placeholder(digest, p1.tag, original);
             NoClash(b, p, original, Placeholder(digest, p2.tag, a + p + c), a + p + c)
    ensures GoodPasses([p1, p2])
    ensures var t := x + (a + original + c) + y;
            var (u, book) := Redacted(digest, b, t, [p1, p2]);
            var p := Placeholder(digest, p1.tag, original);
            && (ComesBack(u, book.rev, t) <==> |p2.tag| > |p1.tag|)
            && (IsLost(u, book.rev, t) <==> |p2.tag| < |p1.tag|)
            && forall keys :: KeyOrder(keys, book.rev) ==>
                 (Sequential(u, keys, book.rev) == t <==> Before(keys, Placeholder(digest, p2.tag, a + p + c), p))
  {
    var t := x + (a + original + c) + y;
    var p := Placeholder(digest, p1.tag, original);
    var q := Placeholder(digest, p2.tag, a + p + c);
    SwallowedText(digest, b, x, a, original, c, y, p1, p2);
    var (u, book) := Redacted(digest, b, t, [p1, p2]);
    PhBracketed(digest, p1.tag, original);
    PhBracketed(digest, p2.tag, a + p + c);
    assert (a + p + c)[|a|] == '<';
    assert q !in b.rev;
    forall keys | KeyOrder(keys, book.rev) ensures Sequential(u, keys, book.rev) == t <==> Before(keys, q, p) {
      TableKeys(digest, b, p1.tag, original, p2.tag, a + p + c, p1.kind, p2.kind, keys);
      OuterToken(x, q, y, a, p, c, keys, book.rev);
      NestDiffers(x, a, p, c, y, original);
    }
    PlaceholderLength(digest, p1.tag, original);
    PlaceholderLength(digest, p2.tag, a + p + c);
    AlwaysBeforeIff(book.rev, p, q);
    NeverBeforeIff(book.rev, p, q);
  }

  /** The same for a later match inside an earlier placeholder, which it splits. */
  lemma SplitComesBackIff(digest: string -> string, b: Book, x: string, original: string, y: string, a: string,
                          m: string, c: string, p1: Pass, p2: Pass)
    requires IsDigest(digest) && GoodPass(p1) && GoodPass(p2) && GoodBook(b)
    requires BracketFree(x) && BracketFree(original) && BracketFree(y) && BracketFree(a) && BracketFree(m)
             && BracketFree(c)
    requires FindsOnce(p1, x, original, y) && Placeholder(digest, p1.tag, original) == "<" + a + m + c + ">"
    requires FindsOnce(p2, x + ("<" + a), m, (c + ">") + y)
    requires NoClash(b, Placeholder(digest, p1.tag, original), original, Placeholder(digest, p2.tag, m), m)
    ensures GoodPasses([p1, p2])
    ensures var t := x + original + y;
            var (u, book) := Redacted(digest, b, t, [p1, p2]);
            && (ComesBack(u, book.rev, t) <==> |p2.tag| > |p1.tag|)
            && (IsLost(u, book.rev, t) <==> |p2.tag| < |p1.tag|)
            && forall keys :: KeyOrder(keys, book.rev) ==>
                 (Sequential(u, keys, book.rev) == t
                  <==> Before(keys, Placeholder(digest, p2.tag, m), Placeholder(digest, p1.tag, original)))
  {
    var t := x + original + y;
    var p := Placeholder(digest, p1.tag, original);
    var q := Placeholder(digest, p2.tag, m);
    SplitText(digest, b, x, original, y, a, m, c, p1, p2);
    var (u, book) := Redacted(digest, b, t, [p1, p2]);
    PhBracketed(digest, p1.tag, original);
    PhBracketed(digest, p2.tag, m);
    forall keys | KeyOrder(keys, book.rev) ensures Sequential(u, keys, book.rev) == t <==> Before(keys, q, p) {
      TableKeys(digest, b, p1.tag, original, p2.tag, m, p1.kind, p2.kind, keys);
      SplitToken(x, y, a, m, c, q, p, keys, book.rev);
      PlainConcat(x, original);
      PlainConcat(x + original, y);
      NotPlain(x, p, y, x + original + y);
    }
    PlaceholderLength(digest, p1.tag, original);
    PlaceholderLength(digest, p2.tag, m);
    AlwaysBeforeIff(book.rev, p, q);
    NeverBeforeIff(book.rev, p, q);
  }

  // ---------------------------------------------------------------- a shared placeholder

  lemma OnePass(digest: string -> string, b: Book, t: string, p: Pass)
    requires GoodPass(p)
    ensures GoodPasses([p]) && Redacted(digest, b, t, [p]) == (PassText(digest, t, p), PassBook(digest, b, t, p))
  {
    assert [p][1..] == [] && GoodPasses([]);
  }

  lemma SameMiddle(x: string, m: string, n: string, y: string)
    ensures x + m + y == x + n + y <==> m == n
  {
    var s, t := x + m + y, x + n + y;
    if s == t {
      assert |s| == |t| && |m| == |n|;
      assert m == s[|x|..|x| + |m|] && n == t[|x|..|x| + |n|];
    }
  }

  lemma RestoredAround(x: string, ph: string, m: string, y: string, keys: seq<string>, rev: map<string, string>)
    requires BracketFree(x) && BracketFree(y) && Bracketed(ph) && ph in rev && GoodMap(rev) && KeyOrder(keys, rev)
    ensures Sequential(x + ph + y, keys, rev) == x + m + y <==> rev[ph] == m
  {
    PlainIsBalanced(y, rev);
    ExpandToken(ph, y, rev);
    ExpandPlain(x, ph + y, rev);
    Assoc(x, ph, y);
    Assoc(x, rev[ph], y);
    OrderDoesNotMatter(x + (ph + y), keys, rev);
    SameMiddle(x, rev[ph], m, y);
  }

  lemma SharedText(digest: string -> string, b: Book, x: string, m: string, y: string, p: Pass)
    requires IsDigest(digest) && GoodPass(p) && FindsOnce(p, x, m, y)
    ensures GoodPasses([p]) && Bracketed(Placeholder(digest, p.tag, m))
    ensures var ph := Placeholder(digest, p.tag, m);
            Redacted(digest, b, x + m + y, [p]) == (x + ph + y, Learn(b, ph, m, p.kind))
  {
    OnePass(digest, b, x + m + y, p);
    OncePass(digest, b, x, m, y, p);
    PhBracketed(digest, p.tag, m);
  }

  /** Two originals may have one placeholder, since the hash is cut. A text with one match comes back in every
      order of the keys, unless the placeholder stood for another original before: then in none. */
  lemma SharedComesBackIff(digest: string -> string, b: Book, x: string, m: string, y: string, p: Pass)
    requires IsDigest(digest) && GoodPass(p) && GoodBook(b) && FindsOnce(p, x, m, y)
    requires BracketFree(x) && BracketFree(m) && BracketFree(y)
    ensures GoodPasses([p])
    ensures var (u, c) := Redacted(digest, b, x + m + y, [p]);
            var ph := Placeholder(digest, p.tag, m);
            if ph in b.rev && b.rev[ph] != m then IsLost(u, c.rev, x + m + y) else ComesBack(u, c.rev, x + m + y)
  {
    var ph := Placeholder(digest, p.tag, m);
    SharedText(digest, b, x, m, y, p);
    LearntIsGood(b, ph, m, p.kind);
    RestoredInAnyOrder(x, ph, m, y, Learn(b, ph, m, p.kind).rev);
  }

  lemma RestoredInAnyOrder(x: string, ph: string, m: string, y: string, rev: map<string, string>)
    requires BracketFree(x) && BracketFree(y) && Bracketed(ph) && ph in rev && GoodMap(rev)
    ensures if rev[ph] == m then ComesBack(x + ph + y, rev, x + m + y) else IsLost(x + ph + y, rev, x + m + y)
  {
    forall keys | KeyOrder(keys, rev) ensures Sequential(x + ph + y, keys, rev) == x + m + y <==> rev[ph] == m {
      RestoredAround(x, ph, m, y, keys, rev);
    }
  }

  lemma LearntIsGood(b: Book, ph: string, m: string, kind: Kind)
    requires GoodBook(b) && Bracketed(ph) && BracketFree(m)
    ensures var rev := Learn(b, ph, m, kind).rev;
            GoodMap(rev) && ph in rev && (rev[ph] == m <==> (ph in b.rev ==> b.rev[ph] == m))
  {
  }
}
