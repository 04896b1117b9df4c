/** When rehydration gives back the text that was redacted. */
module RoundTrip {
  import opened Bytes
  import opened Redaction

  // ---------------------------------------------------------------- reading a text as characters and tokens

  /** A token: `<`, then no brackets, then `>`. */
  predicate Bracketed(p: string) {
    |p| >= 2 && p[0] == '<' && p[|p| - 1] == '>' && BracketFree(p[1..|p| - 1])
  }

  /** One past the bracket that closes the token open at position `i`, or 0 when none does. */
  function CloseFrom(t: string, i: nat): (n: nat)
    ensures n > 0 ==> i < n <= |t| && t[n - 1] == '>' && forall k :: i <= k < n - 1 ==> t[k] != '<' && t[k] != '>'
    decreases |t| - i
  {
    if i >= |t| || t[i] == '<' then 0
    else if t[i] == '>' then i + 1
    else CloseFrom(t, i + 1)
  }

  /** The length of the token a text starts with, or 0. */
  function TokenLen(t: string): (n: nat)
    ensures n > 0 ==> n <= |t| && Bracketed(t[..n])
  {
    if t == [] || t[0] != '<' then 0
    else
      var n := CloseFrom(t, 1);
      assert n > 0 ==> t[..n][1..n - 1] == t[1..n - 1];
      n
  }

  /** Brackets come in tokens only. */
  predicate Balanced(t: string)
    decreases |t|
  {
    t == [] || (if t[0] == '<' then TokenLen(t) > 0 && Balanced(t[TokenLen(t)..]) else t[0] != '>' && Balanced(t[1..]))
  }

  function Meaning(token: string, rev: map<string, string>): string {
    if token in rev then rev[token] else token
  }

  /** Replace all known tokens at once. */
  function Expand(t: string, rev: map<string, string>): string
    decreases |t|
  {
    if t == [] then []
    else if TokenLen(t) > 0 then Meaning(t[..TokenLen(t)], rev) + Expand(t[TokenLen(t)..], rev)
    else [t[0]] + Expand(t[1..], rev)
  }

  lemma {:induction false} CloseFound(t: string, i: nat, n: nat)
    requires i < n <= |t| && t[n - 1] == '>' && forall k :: i <= k < n - 1 ==> t[k] != '<' && t[k] != '>'
    ensures CloseFrom(t, i) == n
    decreases n - i
  {
    if i < n - 1 { CloseFound(t, i + 1, n); }
  }

  /** A text that starts with a bracketed string starts with that token. */
  lemma TokenIs(p: string, r: string)
    requires Bracketed(p)
    ensures TokenLen(p + r) == |p| && (p + r)[..|p|] == p && (p + r)[|p|..] == r
  {
    forall k | 1 <= k < |p| - 1 ensures (p + r)[k] != '<' && (p + r)[k] != '>' {
      assert (p + r)[k] == p[1..|p| - 1][k - 1];
    }
    CloseFound(p + r, 1, |p|);
  }

  lemma ExpandToken(p: string, r: string, rev: map<string, string>)
    requires Bracketed(p)
    ensures Expand(p + r, rev) == Meaning(p, rev) + Expand(r, rev)
    ensures Balanced(p + r) <==> Balanced(r)
  {
    TokenIs(p, r);
  }

  lemma ExpandChar(c: char, r: string, rev: map<string, string>)
    requires c != '<' && c != '>'
    ensures Expand([c] + r, rev) == [c] + Expand(r, rev)
    ensures Balanced([c] + r) <==> Balanced(r)
  {
    assert ([c] + r)[1..] == r;
  }

  lemma BracketFreeTail(v: string)
    requires v != [] && BracketFree(v)
    ensures v[0] != '<' && v[0] != '>' && BracketFree(v[1..]) && v == [v[0]] + v[1..]
  {
    assert forall i :: 0 <= i < |v[1..]| ==> v[1..][i] == v[i + 1];
  }

  lemma Uncons(v: string, r: string)
    requires v != []
    ensures v + r == [v[0]] + (v[1..] + r)
  {
  }

  lemma {:induction false} ExpandPlain(v: string, r: string, rev: map<string, string>)
    requires BracketFree(v)
    ensures Expand(v + r, rev) == v + Expand(r, rev)
    ensures Balanced(v + r) <==> Balanced(r)
  {
    if v == [] {
      assert v + r == r;
    } else {
      BracketFreeTail(v);
      ExpandPlain(v[1..], r, rev);
      Uncons(v, r);
      ExpandChar(v[0], v[1..] + r, rev);
      Uncons(v, Expand(r, rev));
    }
  }

  // ---------------------------------------------------------------- one replacement

  lemma ReplaceStep(t: string, k: string, v: string)
    requires k != [] && t != [] && !(k <= t)
    ensures Replace(t, k, v) == [t[0]] + Replace(t[1..], k, v)
  {
    if |t| < |k| {
      assert t == [t[0]] + t[1..];
    } else {
      assert t[..|k|] != k;
    }
  }

  lemma ReplacePrefix(t: string, k: string, v: string)
    requires k != [] && k <= t
    ensures Replace(t, k, v) == v + Replace(t[|k|..], k, v)
  {
    assert t[..|k|] == k;
  }

  lemma TailHasNoOpening(a: string)
    requires a != [] && forall i :: 0 <= i < |a| ==> a[i] != '<'
    ensures forall i :: 0 <= i < |a[1..]| ==> a[1..][i] != '<'
  {
  }

  lemma TailOfSum(a: string, r: string)
    requires a != []
    ensures (a + r)[0] == a[0] && (a + r)[1..] == a[1..] + r
  {
  }

  lemma OtherFirst(k: string, t: string)
    requires k != [] && t != [] && k[0] != t[0]
    ensures !(k <= t)
  {
  }

  /** Text without an opening bracket is passed over. */
  lemma {:induction false} ReplaceThrough(a: string, r: string, k: string, v: string)
    requires k != [] && k[0] == '<' && forall i :: 0 <= i < |a| ==> a[i] != '<'
    ensures Replace(a + r, k, v) == a + Replace(r, k, v)
  {
    if a == [] {
      assert a + r == r;
    } else {
      TailHasNoOpening(a);
      ReplaceThrough(a[1..], r, k, v);
      TailOfSum(a, r);
      OtherFirst(k, a + r);
      ReplaceStep(a + r, k, v);
      Uncons(a, Replace(r, k, v));
    }
  }

  lemma TokenUnique(p: string, k: string, t: string)
    requires Bracketed(p) && Bracketed(k) && p <= t && k <= t
    ensures p == k
  {
    assert t == p + t[|p|..] && t == k + t[|k|..];
    TokenIs(p, t[|p|..]);
    TokenIs(k, t[|k|..]);
  }

  /** Another token is passed over as a whole. */
  lemma ReplaceThroughToken(p: string, r: string, k: string, v: string)
    requires Bracketed(p) && Bracketed(k) && p != k
    ensures Replace(p + r, k, v) == p + Replace(r, k, v)
  {
    var t := p + r;
    if k <= t { TokenUnique(p, k, t); }
    ReplaceStep(t, k, v);
    Uncons(p, r);
    TokenTail(p);
    ReplaceThrough(p[1..], r, k, v);
    Uncons(p, Replace(r, k, v));
    assert t[1..] == p[1..] + r;
  }

  lemma TokenTail(p: string)
    requires Bracketed(p)
    ensures forall i :: 0 <= i < |p[1..]| ==> p[1..][i] != '<'
  {
    forall i | 0 <= i < |p[1..]| ensures p[1..][i] != '<' {
      if i < |p| - 2 { assert p[1..][i] == p[1..|p| - 1][i]; }
    }
  }

  /** Replacing one token by plain text, and then all others, is replacing them all at once. */
  lemma {:induction false} ReplaceExpand(t: string, k: string, v: string, m: map<string, string>)
    requires Balanced(t) && Bracketed(k) && BracketFree(v) && k !in m
    ensures Balanced(Replace(t, k, v)) && Expand(Replace(t, k, v), m) == Expand(t, m[k := v])
    decreases |t|
  {
    if t == [] {
    } else if t[0] == '<' {
      var n := TokenLen(t);
      var p, r := t[..n], t[n..];
      assert t == p + r;
      ReplaceExpand(r, k, v, m);
      ExpandToken(p, r, m[k := v]);
      if p == k {
        ReplacePrefix(t, k, v);
        ExpandPlain(v, Replace(r, k, v), m);
      } else {
        ReplaceThroughToken(p, r, k, v);
        ExpandToken(p, Replace(r, k, v), m);
      }
    } else {
      assert t == [t[0]] + t[1..];
      ReplaceExpand(t[1..], k, v, m);
      assert !(k <= t);
      ReplaceStep(t, k, v);
      ExpandChar(t[0], Replace(t[1..], k, v), m);
      ExpandChar(t[0], t[1..], m[k := v]);
    }
  }

  // ---------------------------------------------------------------- all keys, in any order

  /** Keys are tokens, and what they stand for contains no brackets. */
  predicate GoodMap(rev: map<string, string>) {
    forall k :: k in rev ==> Bracketed(k) && BracketFree(rev[k])
  }

  ghost function Restrict(rev: map<string, string>, keys: seq<string>): map<string, string> {
    map k | k in rev && k in keys :: rev[k]
  }

  lemma {:induction false} ExpandNothing(t: string)
    ensures Expand(t, map[]) == t
    decreases |t|
  {
    if t != [] {
      var n := TokenLen(t);
      if n > 0 {
        ExpandNothing(t[n..]);
        assert Meaning(t[..n], map[]) == t[..n];
        Rejoin(t, n);
      } else {
        ExpandNothing(t[1..]);
        Rejoin(t, 1);
      }
    }
  }

  lemma Rejoin(t: string, n: nat)
    requires 0 < n <= |t|
    ensures t == t[..n] + t[n..] && t[..1] == [t[0]]
  {
  }

  lemma RestrictCons(rev: map<string, string>, k: string, rest: seq<string>)
    requires k in rev
    ensures Restrict(rev, [k] + rest) == Restrict(rev, rest)[k := rev[k]]
  {
  }

  lemma {:induction false} SequentialExpands(t: string, keys: seq<string>, rev: map<string, string>)
    requires Balanced(t) && GoodMap(rev) && forall k :: k in keys ==> k in rev
    requires forall i, j :: 0 <= i < j < |keys| ==> keys[i] != keys[j]
    ensures Sequential(t, keys, rev) == Expand(t, Restrict(rev, keys))
    decreases |keys|
  {
    if keys == [] {
      assert Restrict(rev, keys) == map[];
      ExpandNothing(t);
    } else {
      var k, rest := keys[0], keys[1..];
      assert keys == [k] + rest;
      assert k !in rest;
      ReplaceExpand(t, k, rev[k], Restrict(rev, rest));
      SequentialExpands(Replace(t, k, rev[k]), rest, rev);
      RestrictCons(rev, k, rest);
    }
  }

  /** Sequential replacement equals simultaneous replacement, whatever order keys of equal length
      come in, and with any mappings left over from earlier calls. */
  lemma OrderDoesNotMatter(t: string, keys: seq<string>, rev: map<string, string>)
    requires Balanced(t) && GoodMap(rev) && KeyOrder(keys, rev)
    ensures Sequential(t, keys, rev) == Expand(t, rev)
  {
    SequentialExpands(t, keys, rev);
    assert Restrict(rev, keys) == rev;
  }

  // ---------------------------------------------------------------- redaction leaves tokens that expand back

  lemma {:induction false} PlainIsBalanced(t: string, rev: map<string, string>)
    requires BracketFree(t)
    ensures Balanced(t) && Expand(t, rev) == t
  {
    if t != [] {
      BracketFreeTail(t);
      PlainIsBalanced(t[1..], rev);
    }
  }

  /** A text may be cut between tokens. */
  lemma {:induction false} BalancedSplit(a: string, b: string)
    requires Balanced(a)
    ensures Balanced(a + b) <==> Balanced(b)
    decreases |a|
  {
    if a == [] {
      assert a + b == b;
    } else if a[0] == '<' {
      var p, r := a[..TokenLen(a)], a[TokenLen(a)..];
      assert a + b == p + (r + b);
      BalancedSplit(r, b);
      ExpandToken(p, r + b, map[]);
    } else {
      Uncons(a, b);
      BalancedSplit(a[1..], b);
      ExpandChar(a[0], a[1..] + b, map[]);
    }
  }

  lemma {:induction false} ExpandSplit(a: string, b: string, rev: map<string, string>)
    requires Balanced(a)
    ensures Expand(a + b, rev) == Expand(a, rev) + Expand(b, rev)
    decreases |a|
  {
    if a == [] {
      assert a + b == b;
    } else if a[0] == '<' {
      var p, r := a[..TokenLen(a)], a[TokenLen(a)..];
      assert a == p + r && a + b == p + (r + b);
      ExpandSplit(r, b, rev);
      ExpandToken(p, r + b, rev);
      ExpandToken(p, r, rev);
      Assoc(Meaning(p, rev), Expand(r, rev), Expand(b, rev));
    } else {
      Uncons(a, b);
      assert a == [a[0]] + a[1..];
      ExpandSplit(a[1..], b, rev);
      ExpandChar(a[0], a[1..] + b, rev);
      ExpandChar(a[0], a[1..], rev);
      Assoc([a[0]], Expand(a[1..], rev), Expand(b, rev));
    }
  }

  /** No span touches a placeholder: between spans the text is balanced, inside it has no brackets. */
  predicate Outside(t: string, start: nat, spans: seq<(nat, nat)>)
    requires Placed(t, start, spans)
    decreases |spans|
  {
    if spans == [] then Balanced(t[start..])
    else
      Balanced(t[start..spans[0].0]) && BracketFree(t[spans[0].0..spans[0].1]) && Outside(t, spans[0].1, spans[1..])
  }

  /** Every match can be read back: its placeholder is bracketed and stands for it and nothing else. */
  predicate Faithful(rev: map<string, string>, t: string, start: nat, spans: seq<(nat, nat)>, ph: string -> string)
    requires Placed(t, start, spans)
    decreases |spans|
  {
    spans == [] ||
    var m := t[spans[0].0..spans[0].1];
    Bracketed(ph(m)) && ph(m) in rev && rev[ph(m)] == m && Faithful(rev, t, spans[0].1, spans[1..], ph)
  }

  lemma ThreeParts(t: string, start: nat, i: nat, j: nat)
    requires start <= i <= j <= |t|
    ensures t[start..] == t[start..i] + (t[i..j] + t[j..])
  {
  }

  /** A match between tokens, as part of a balanced text. */
  lemma MatchAround(a: string, m: string, c: string, rev: map<string, string>)
    requires Balanced(a) && BracketFree(m) && Balanced(a + (m + c))
    ensures Balanced(c) && Expand(a + (m + c), rev) == Expand(a, rev) + (m + Expand(c, rev))
  {
    PlainIsBalanced(m, rev);
    BalancedSplit(a, m + c);
    BalancedSplit(m, c);
    ExpandSplit(a, m + c, rev);
    ExpandSplit(m, c, rev);
  }

  /** A token in the same place. */
  lemma TokenAround(a: string, p: string, r: string, rev: map<string, string>)
    requires Balanced(a) && Bracketed(p) && p in rev && Balanced(r)
    ensures Balanced(a + (p + r))
    ensures Expand(a + (p + r), rev) == Expand(a, rev) + (rev[p] + Expand(r, rev))
  {
    BalancedSplit(a, p + r);
    ExpandToken(p, r, rev);
    ExpandSplit(a, p + r, rev);
  }

  /** One pass: the rewritten text expands to what the text expanded to. */
  lemma {:induction false} RewriteExpands(t: string, start: nat, spans: seq<(nat, nat)>, ph: string -> string,
                                          rev: map<string, string>)
    requires Placed(t, start, spans) && Outside(t, start, spans) && Faithful(rev, t, start, spans, ph)
    requires Balanced(t[start..])
    ensures Balanced(Rewrite(t, start, spans, ph))
    ensures Expand(Rewrite(t, start, spans, ph), rev) == Expand(t[start..], rev)
    decreases |spans|
  {
    if spans != [] {
      var (i, j) := spans[0];
      var a, m, c := t[start..i], t[i..j], t[j..];
      var r := Rewrite(t, j, spans[1..], ph);
      ThreeParts(t, start, i, j);
      MatchAround(a, m, c, rev);
      RewriteExpands(t, j, spans[1..], ph, rev);
      RewriteFirst(t, start, spans, ph);
      Assoc(a, ph(m), r);
      TokenAround(a, ph(m), r, rev);
    }
  }

  // ---------------------------------------------------------------- the round trip

  /** The book knows tokens only, and plain originals for them. */
  predicate GoodBook(b: Book) { GoodMap(b.rev) }

  /** What has to hold of every pass, on the text it finds: every match lies between tokens and has no
      brackets, and no two originals share a placeholder. */
  ghost predicate SafePasses(digest: string -> string, t: string, ps: seq<Pass>, rev: map<string, string>)
    requires GoodPasses(ps)
    decreases |ps|
  {
    if ps == [] then true
    else
      assert GoodPass(ps[0]);
      SpansPlaced(ps[0].find, t, 0);
      var spans := Spans(ps[0].find, t, 0);
      && Outside(t, 0, spans) && NoCollision(rev, t, 0, spans, Ph(digest, ps[0].tag))
      && SafePasses(digest, PassText(digest, t, ps[0]), ps[1..], rev)
  }

  /** Every match is what its placeholder stands for in the table. */
  predicate NoCollision(rev: map<string, string>, t: string, start: nat, spans: seq<(nat, nat)>, ph: string -> string)
    requires Placed(t, start, spans)
    decreases |spans|
  {
    spans == [] ||
    var m := t[spans[0].0..spans[0].1];
    (ph(m) in rev ==> rev[ph(m)] == m) && NoCollision(rev, t, spans[0].1, spans[1..], ph)
  }

  lemma PlaceholderBracketed(p: string)
    requires IsPlaceholder(p)
    ensures Bracketed(p)
  {
    var inner := p[1..|p| - 1];
    forall i | 0 <= i < |inner| ensures inner[i] != '<' && inner[i] != '>' {
      assert inner[i] == p[i + 1];
    }
  }

  lemma PhBracketed(digest: string -> string, tag: string, m: string)
    requires IsDigest(digest) && TagText(tag)
    ensures Bracketed(Ph(digest, tag)(m))
  {
    PlaceholderShape(digest, tag, m);
    PlaceholderBracketed(Placeholder(digest, tag, m));
  }

  /** After a pass every match has its placeholder in the table. */
  lemma {:induction false} LearnAllKnows(b: Book, t: string, start: nat, spans: seq<(nat, nat)>,
                                         digest: string -> string, tag: string, kind: Kind, rev: map<string, string>)
    requires IsDigest(digest) && TagText(tag) && Placed(t, start, spans)
    requires Extends(LearnAll(b, t, start, spans, Ph(digest, tag), kind),
                     Book(rev, LearnAll(b, t, start, spans, Ph(digest, tag), kind).entries))
    requires NoCollision(rev, t, start, spans, Ph(digest, tag))
    ensures Faithful(rev, t, start, spans, Ph(digest, tag))
    decreases |spans|
  {
    if spans != [] {
      var ph := Ph(digest, tag);
      var m := t[spans[0].0..spans[0].1];
      var c := Learn(b, ph(m), m, kind);
      PhBracketed(digest, tag, m);
      LearnKeeps(b, ph(m), m, kind);
      LearnAllKeeps(c, t, spans[0].1, spans[1..], ph, kind);
      LearnAllKnows(c, t, spans[0].1, spans[1..], digest, tag, kind, rev);
    }
  }

  /** `rev` knows what `b` knows. */
  predicate Knows(rev: map<string, string>, b: Book) { forall p :: p in b.rev ==> p in rev && rev[p] == b.rev[p] }

  /** One pass, seen from any table that knows what it learnt. */
  lemma PassIsFaithful(digest: string -> string, b: Book, t: string, ps: seq<Pass>, rev: map<string, string>)
    requires IsDigest(digest) && GoodPasses(ps) && ps != [] && Knows(rev, Redacted(digest, b, t, ps).1)
    requires GoodPass(ps[0]) && Placed(t, 0, Spans(ps[0].find, t, 0))
    requires NoCollision(rev, t, 0, Spans(ps[0].find, t, 0), Ph(digest, ps[0].tag))
    ensures GoodPasses(ps[1..]) && Knows(rev, PassBook(digest, b, t, ps[0]))
    ensures Faithful(rev, t, 0, Spans(ps[0].find, t, 0), Ph(digest, ps[0].tag))
  {
    var c := PassBook(digest, b, t, ps[0]);
    RedactedFirst(digest, b, t, ps);
    RedactedKeeps(digest, c, PassText(digest, t, ps[0]), ps[1..]);
    LearnAllKnows(b, t, 0, Spans(ps[0].find, t, 0), digest, ps[0].tag, ps[0].kind, rev);
  }

  lemma {:induction false} PassesExpand(digest: string -> string, b: Book, t: string, ps: seq<Pass>,
                                        rev: map<string, string>)
    requires IsDigest(digest) && GoodPasses(ps) && Balanced(t) && SafePasses(digest, t, ps, rev)
    requires Knows(rev, Redacted(digest, b, t, ps).1)
    ensures var u := Redacted(digest, b, t, ps).0; Balanced(u) && Expand(u, rev) == Expand(t, rev)
    decreases |ps|
  {
    if ps != [] {
      assert GoodPass(ps[0]);
      SpansPlaced(ps[0].find, t, 0);
      PassIsFaithful(digest, b, t, ps, rev);
      assert t[0..] == t;
      RewriteExpands(t, 0, Spans(ps[0].find, t, 0), Ph(digest, ps[0].tag), rev);
      PassesExpand(digest, PassBook(digest, b, t, ps[0]), PassText(digest, t, ps[0]), ps[1..], rev);
    }
  }

  /** What rehydration makes of a balanced text that was redacted by passes that touch no token and meet
      no hash collision: the text with all tokens the table knows replaced, whatever the order of the
      keys, now and with any plain mappings learnt before or later. */
  lemma RehydrateExpands(digest: string -> string, b: Book, t: string, ps: seq<Pass>, rev: map<string, string>,
                         keys: seq<string>)
    requires IsDigest(digest) && GoodPasses(ps) && Balanced(t) && GoodMap(rev) && SafePasses(digest, t, ps, rev)
    requires Knows(rev, Redacted(digest, b, t, ps).1) && KeyOrder(keys, rev)
    ensures Sequential(Redacted(digest, b, t, ps).0, keys, rev) == Expand(t, rev)
  {
    PassesExpand(digest, b, t, ps, rev);
    OrderDoesNotMatter(Redacted(digest, b, t, ps).0, keys, rev);
  }
}
