/** Private-key blocks: a begin marker, anything, an end marker. What is in between may be rewritten
    by later passes, so the guarantee is about the two markers. */
module KeyBlock {
  import opened Redaction
  import opened Leak

  /** Starts with a begin marker and ends with a later end marker. */
  predicate Enclosed(begin: Pattern, end: Pattern, s: string) {
    exists i, j :: 0 <= i <= j <= |s| && Marked(begin, end, s, i, j)
  }

  predicate Marked(begin: Pattern, end: Pattern, s: string, i: nat, j: nat)
    requires i <= j <= |s|
  {
    begin(s[..i]) && end(s[j..])
  }

  function Block(begin: Pattern, end: Pattern): Pattern { s => Enclosed(begin, end, s) }

  /** Wherever the text is cut, there is no begin marker before the cut or no end marker after it. */
  ghost predicate NoBlock(begin: Pattern, end: Pattern, t: string) {
    forall k :: 0 <= k <= |t| ==> CutClean(begin, end, t, k)
  }

  ghost predicate CutClean(begin: Pattern, end: Pattern, t: string, k: nat)
    requires k <= |t|
  {
    NoMatch(begin, t[..k]) || NoMatch(end, t[k..])
  }

  lemma CleanHasNoBlock(begin: Pattern, end: Pattern, t: string, i: nat, j: nat)
    requires NoBlock(begin, end, t) && i <= j <= |t|
    ensures !Enclosed(begin, end, t[i..j])
  {
    var s := t[i..j];
    forall a, b | 0 <= a <= b <= |s| ensures !Marked(begin, end, s, a, b) {
      assert CutClean(begin, end, t, i + a);
      assert s[..a] == t[..i + a][i..i + a];
      assert s[b..] == t[i + a..][b - a..|s| - a];
    }
  }

  lemma MarkersMakeBlock(begin: Pattern, end: Pattern, t: string, a: nat, b: nat, c: nat, d: nat)
    requires a <= b <= c <= d <= |t| && begin(t[a..b]) && end(t[c..d])
    ensures Enclosed(begin, end, t[a..d])
  {
    var s := t[a..d];
    assert s[..b - a] == t[a..b] && s[c - a..] == t[c..d];
    assert Marked(begin, end, s, b - a, c - a);
  }

  /** The two ways to say it: no part of the text is a block, and every cut is clean. */
  lemma NoBlockIff(begin: Pattern, end: Pattern, t: string)
    ensures NoBlock(begin, end, t) <==> NoMatch(Block(begin, end), t)
  {
    if NoBlock(begin, end, t) {
      forall i, j | 0 <= i <= j <= |t| ensures !Block(begin, end)(t[i..j]) { CleanHasNoBlock(begin, end, t, i, j); }
    }
    if NoMatch(Block(begin, end), t) {
      forall k | 0 <= k <= |t| ensures CutClean(begin, end, t, k) { CutIsClean(begin, end, t, k); }
    }
  }

  lemma CutIsClean(begin: Pattern, end: Pattern, t: string, k: nat)
    requires k <= |t| && NoMatch(Block(begin, end), t)
    ensures CutClean(begin, end, t, k)
  {
    forall a, b, c, d | 0 <= a <= b <= k && 0 <= c <= d <= |t| - k
      ensures !(begin(t[..k][a..b]) && end(t[k..][c..d])) {
      assert t[..k][a..b] == t[a..b] && t[k..][c..d] == t[k + c..k + d];
      assert !Block(begin, end)(t[a..k + d]);
      if begin(t[a..b]) && end(t[k + c..k + d]) { MarkersMakeBlock(begin, end, t, a, b, k + c, k + d); }
    }
  }

  // ---------------------------------------------------------------- placeholders separate

  ghost predicate Separable(begin: Pattern, end: Pattern) { BarrierSafe(begin, '-') && BarrierSafe(end, '-') }

  lemma SlicesOfSlice(t: string, i: nat, j: nat, k: nat)
    requires i <= i + k <= j <= |t|
    ensures t[i..j][..k] == t[..i + k][i..i + k] && t[i..j][k..] == t[i + k..][0..j - i - k]
  {
  }

  lemma PartHasNoBlock(begin: Pattern, end: Pattern, t: string, i: nat, j: nat)
    requires NoBlock(begin, end, t) && i <= j <= |t|
    ensures NoBlock(begin, end, t[i..j])
  {
    forall k | 0 <= k <= j - i ensures CutClean(begin, end, t[i..j], k) {
      assert CutClean(begin, end, t, i + k);
      SlicesOfSlice(t, i, j, k);
      if NoMatch(begin, t[..i + k]) {
        PartHasNoMatch(begin, t[..i + k], i, i + k);
      } else {
        PartHasNoMatch(end, t[i + k..], 0, j - i - k);
      }
    }
  }

  /** Around a placeholder: no block on either side, and none across it. */
  lemma BlockBarrier(begin: Pattern, end: Pattern, a: string, ph: string, b: string)
    requires Separable(begin, end) && IsPlaceholder(ph)
    requires NoBlock(begin, end, a) && NoBlock(begin, end, b) && (NoMatch(begin, a) || NoMatch(end, b))
    ensures NoBlock(begin, end, a + ph + b)
  {
    forall k | 0 <= k <= |a + ph + b| ensures CutClean(begin, end, a + ph + b, k) {
      if k <= |a| {
        CutInFront(begin, end, a, ph, b, k);
      } else if k < |a| + |ph| {
        CutInside(begin, end, a, ph, b, k);
      } else {
        CutBehind(begin, end, a, ph, b, k);
      }
    }
  }

  lemma CutInFront(begin: Pattern, end: Pattern, a: string, ph: string, b: string, k: nat)
    requires Separable(begin, end) && IsPlaceholder(ph) && k <= |a|
    requires NoBlock(begin, end, a) && (NoMatch(begin, a) || NoMatch(end, b))
    ensures CutClean(begin, end, a + ph + b, k)
  {
    var t := a + ph + b;
    assert t[..k] == a[..k] == a[0..k] && t[k..] == a[k..] + ph + b;
    assert CutClean(begin, end, a, k);
    if NoMatch(begin, a) { PartHasNoMatch(begin, a, 0, k); }
    else if NoMatch(end, a[k..]) { Barrier(end, '-', a[k..], ph, b); }
  }

  lemma CutInside(begin: Pattern, end: Pattern, a: string, ph: string, b: string, k: nat)
    requires Separable(begin, end) && IsPlaceholder(ph) && |a| < k < |a| + |ph|
    requires NoMatch(begin, a) || NoMatch(end, b)
    ensures CutClean(begin, end, a + ph + b, k)
  {
    var t, e := a + ph + b, "";
    if NoMatch(begin, a) {
      EmptyHasNone(begin, '-');
      Barrier(begin, '-', a, ph, e);
      assert t[..k] == (a + ph + e)[0..k];
      PartHasNoMatch(begin, a + ph + e, 0, k);
    } else {
      EmptyHasNone(end, '-');
      Barrier(end, '-', e, ph, b);
      assert t[k..] == (e + ph + b)[k - |a|..|ph + b|];
      PartHasNoMatch(end, e + ph + b, k - |a|, |ph + b|);
    }
  }

  lemma CutBehind(begin: Pattern, end: Pattern, a: string, ph: string, b: string, k: nat)
    requires Separable(begin, end) && IsPlaceholder(ph) && |a| + |ph| <= k <= |a + ph + b|
    requires NoBlock(begin, end, b) && (NoMatch(begin, a) || NoMatch(end, b))
    ensures CutClean(begin, end, a + ph + b, k)
  {
    var t, n := a + ph + b, |a| + |ph|;
    assert t[..k] == a + ph + b[..k - n] && t[k..] == b[k - n..] == b[k - n..|b|];
    assert CutClean(begin, end, b, k - n);
    if NoMatch(end, b) { PartHasNoMatch(end, b, k - n, |b|); }
    else if NoMatch(begin, b[..k - n]) { Barrier(begin, '-', a, ph, b[..k - n]); }
  }

  lemma EmptyHasNone(p: Pattern, mark: char)
    requires BarrierSafe(p, mark)
    ensures NoMatch(p, "")
  {
    var e := "";
    forall i, j | 0 <= i <= j <= |e| ensures !p(e[i..j]) { assert e[i..j] == []; }
  }

  /** Later passes create no block. */
  lemma {:induction false} RewriteCreatesNoBlock(begin: Pattern, end: Pattern, t: string, start: nat,
                                                 spans: seq<(nat, nat)>, ph: string -> string)
    requires Separable(begin, end) && MakesPlaceholders(ph) && Placed(t, start, spans)
             && NoBlock(begin, end, t[start..])
    ensures NoBlock(begin, end, Rewrite(t, start, spans, ph))
    decreases |spans|
  {
    if spans != [] {
      var (i, j) := spans[0];
      var u := t[start..];
      PartHasNoBlock(begin, end, u, 0, i - start);
      PartHasNoBlock(begin, end, u, j - start, |u|);
      assert u[0..i - start] == t[start..i] == u[..i - start] && u[j - start..|u|] == t[j..];
      RewriteCreatesNoBlock(begin, end, t, j, spans[1..], ph);
      assert CutClean(begin, end, u, i - start);
      if NoMatch(end, u[i - start..]) {
        assert t[j..] == u[i - start..][j - i..|t| - i];
        PartHasNoMatch(end, u[i - start..], j - i, |t| - i);
        RewriteCreatesNone(end, '-', t, j, spans[1..], ph);
      }
      RewriteFirst(t, start, spans, ph);
      BlockBarrier(begin, end, t[start..i], ph(t[i..j]), Rewrite(t, j, spans[1..], ph));
    }
  }

  // ---------------------------------------------------------------- the block pass itself

  /** What is found is a block, and no block starts before it. */
  ghost predicate FindsBlocks(begin: Pattern, end: Pattern, find: Finder) {
    && FindsLeftmost(Block(begin, end), find)
    && forall t: string, start: nat :: start <= |t| ==> FoundIsBlock(begin, end, find, t, start)
  }

  ghost predicate FoundIsBlock(begin: Pattern, end: Pattern, find: Finder, t: string, start: nat)
    requires start <= |t| && IsFinder(find)
  {
    assert FindsAt(find, t, start);
    find(t, start).Some? ==> Enclosed(begin, end, t[find(t, start).value.0..find(t, start).value.1])
  }

  /** In front of the leftmost block there is neither a block nor a lone begin marker, since a begin
      marker there would start a block itself. */
  lemma GapHasNoBegin(begin: Pattern, end: Pattern, t: string, start: nat, i: nat, j: nat)
    requires BarrierSafe(begin, '-') && start <= i <= j <= |t| && Enclosed(begin, end, t[i..j])
    requires forall a, b :: start <= a < i && a <= b <= |t| ==> !Enclosed(begin, end, t[a..b])
    ensures NoMatch(begin, t[start..i])
  {
    var x, y :| 0 <= x <= y <= j - i && Marked(begin, end, t[i..j], x, y);
    assert t[i..j][y..] == t[i + y..j];
    forall a, b | 0 <= a <= b <= i - start ensures !begin(t[start..i][a..b]) {
      SliceSlice(t, start, i, a, b);
      if a == i - start {
        assert t[start..i][a..b] == [];
      } else {
        assert !Enclosed(begin, end, t[start + a..j]);
        if begin(t[start + a..start + b]) { MarkersMakeBlock(begin, end, t, start + a, start + b, i + y, j); }
      }
    }
  }

  lemma NoBeginNoBlock(begin: Pattern, end: Pattern, t: string)
    requires NoMatch(begin, t)
    ensures NoBlock(begin, end, t)
  {
    forall k | 0 <= k <= |t| ensures CutClean(begin, end, t, k) {
      PartHasNoMatch(begin, t, 0, k);
      assert t[0..k] == t[..k];
    }
  }

  lemma NothingFound(begin: Pattern, end: Pattern, t: string, start: nat)
    requires start <= |t|
    requires forall i, j :: start <= i <= j <= |t| ==> !Block(begin, end)(t[i..j])
    ensures NoBlock(begin, end, t[start..])
  {
    forall i, j | 0 <= i <= j <= |t[start..]| ensures !Block(begin, end)(t[start..][i..j]) {
      assert t[start..][i..j] == t[start + i..start + j];
    }
    NoBlockIff(begin, end, t[start..]);
  }

  /** Replacing every block leaves none. */
  lemma {:induction false} OwnPassLeavesNoBlock(begin: Pattern, end: Pattern, find: Finder, t: string, start: nat,
                                                ph: string -> string)
    requires Separable(begin, end) && MakesPlaceholders(ph) && FindsBlocks(begin, end, find) && start <= |t|
    ensures Placed(t, start, Spans(find, t, start))
    ensures NoBlock(begin, end, Rewrite(t, start, Spans(find, t, start), ph))
    decreases |t| - start
  {
    SpansPlaced(find, t, start);
    assert FindsAt(find, t, start) && LeftmostAt(Block(begin, end), find, t, start)
           && FoundIsBlock(begin, end, find, t, start);
    match find(t, start) {
      case None =>
        assert Spans(find, t, start) == [];
        NothingFound(begin, end, t, start);
      case Some(m) =>
        SpansFirst(find, t, start);
        OwnPassLeavesNoBlock(begin, end, find, t, m.1, ph);
        RewriteFirst(t, start, Spans(find, t, start), ph);
        assert forall a, b :: start <= a < m.0 && a <= b <= |t| ==> !Block(begin, end)(t[a..b]);
        GapHasNoBegin(begin, end, t, start, m.0, m.1);
        NoBeginNoBlock(begin, end, t[start..m.0]);
        BlockBarrier(begin, end, t[start..m.0], ph(t[m.0..m.1]), Rewrite(t, m.1, Spans(find, t, m.1), ph));
    }
  }

  lemma {:induction false} LaterPassesCreateNoBlock(begin: Pattern, end: Pattern, digest: string -> string, b: Book,
                                                    t: string, ps: seq<Pass>)
    requires Separable(begin, end) && IsDigest(digest) && GoodPasses(ps) && NoBlock(begin, end, t)
    ensures NoBlock(begin, end, Redacted(digest, b, t, ps).0)
    decreases |ps|
  {
    if ps != [] {
      assert GoodPass(ps[0]);
      SpansPlaced(ps[0].find, t, 0);
      PhMakesPlaceholders(digest, ps[0].tag);
      assert t[0..] == t;
      RewriteCreatesNoBlock(begin, end, t, 0, Spans(ps[0].find, t, 0), Ph(digest, ps[0].tag));
      LaterPassesCreateNoBlock(begin, end, digest, PassBook(digest, b, t, ps[0]), PassText(digest, t, ps[0]), ps[1..]);
    }
  }

  // ---------------------------------------------------------------- private keys

  const PRIVATE_KEY: string := "PRIVATE KEY-----"

  /** `head`, capital letters and spaces, `PRIVATE KEY-----`. */
  predicate Marker(head: string, s: string) {
    && |s| >= |head| + |PRIVATE_KEY| && s[..|head|] == head && s[|s| - |PRIVATE_KEY|..] == PRIVATE_KEY
    && forall i :: |head| <= i < |s| - |PRIVATE_KEY| ==> 'A' <= s[i] <= 'Z' || s[i] == ' '
  }

  predicate IsBegin(s: string) { Marker("-----BEGIN ", s) }

  predicate IsEnd(s: string) { Marker("-----END ", s) }

  lemma MarkersSeparable()
    ensures Separable(IsBegin, IsEnd)
  {
    forall s | IsBegin(s) ensures BracketFree(s) && '-' in s { MarkerSafe("-----BEGIN ", s); }
    forall s | IsEnd(s) ensures BracketFree(s) && '-' in s { MarkerSafe("-----END ", s); }
  }

  lemma MarkerSafe(head: string, s: string)
    requires Marker(head, s) && BracketFree(head)
    ensures BracketFree(s) && '-' in s
  {
    var n := |s| - |PRIVATE_KEY|;
    forall i | 0 <= i < |s| ensures s[i] != '<' && s[i] != '>' {
      if i < |head| { assert s[i] == s[..|head|][i] == head[i]; }
      else if n <= i { assert s[i] == s[n..][i - n] == PRIVATE_KEY[i - n]; }
    }
    assert s[n + 11] == s[n..][11] == PRIVATE_KEY[11] == '-';
  }

  /** If the first pass looks for private-key blocks, the final text has none, although later passes
      rewrite the text between stray markers. */
  lemma KeyBlocksAreGone(digest: string -> string, b: Book, t: string, ps: seq<Pass>)
    requires IsDigest(digest) && GoodPasses(ps) && ps != [] && FindsBlocks(IsBegin, IsEnd, ps[0].find)
    ensures NoMatch(Block(IsBegin, IsEnd), Redacted(digest, b, t, ps).0)
  {
    assert GoodPass(ps[0]);
    MarkersSeparable();
    PhMakesPlaceholders(digest, ps[0].tag);
    OwnPassLeavesNoBlock(IsBegin, IsEnd, ps[0].find, t, 0, Ph(digest, ps[0].tag));
    LaterPassesCreateNoBlock(IsBegin, IsEnd, digest, PassBook(digest, b, t, ps[0]), PassText(digest, t, ps[0]),
                             ps[1..]);
    NoBlockIff(IsBegin, IsEnd, Redacted(digest, b, t, ps).0);
  }
}
