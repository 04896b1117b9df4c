/** Custom terms: what is left of them, and where. */
module Terms {
  import opened Redaction
  import opened Leak
  import opened LocalRedactor

  lemma {:induction false} TermPassAt(terms: seq<string>, i: nat)
    requires i < |terms| && !Blank(terms[i])
    ensures TermPass(terms[i]) in TermPasses(terms)
  {
    if i > 0 { TermPassAt(terms[1..], i - 1); }
  }

  /** Unless redaction is off, a custom term without brackets that holds a character no placeholder holds
      is gone from the result. */
  lemma TermIsGone(digest: string -> string, b: Book, t: string, mode: RedactMode, p: Patterns, terms: seq<string>,
                   i: nat, mark: char)
    requires IsDigest(digest) && GoodPatterns(p) && mode != RedactMode.None && i < |terms| && !Blank(terms[i])
    requires BracketFree(terms[i]) && mark in terms[i] && !TagChar(mark) && !HexChar(mark)
    ensures GoodPasses(Passes(mode, p, terms))
    ensures NoMatch(Is(terms[i]), Redacted(digest, b, t, Passes(mode, p, terms)).0)
  {
    var ps := Passes(mode, p, terms);
    PassesGood(mode, p, terms);
    TermPassAt(terms, i);
    assert TermPass(terms[i]) in ps;
    var n :| 0 <= n < |ps| && ps[n] == TermPass(terms[i]);
    LiteralFindsLeftmost(terms[i]);
    PatternIsGone(Is(terms[i]), mark, digest, b, t, ps, n);
  }

  // ---------------------------------------------------------------- what one pass leaves

  lemma OccursIsMatch(w: string, t: string)
    ensures Occurs(w, t) <==> !NoMatch(Is(w), t)
  {
    if !NoMatch(Is(w), t) {
      var i, j :| 0 <= i <= j <= |t| && Is(w)(t[i..j]);
      assert At(t, i, w);
    }
    if Occurs(w, t) {
      var i :| 0 <= i <= |t| && At(t, i, w);
      assert Is(w)(t[i..i + |w|]);
    }
  }

  lemma OccursInside(w: string, a: string, s: string, c: string)
    requires Occurs(w, s)
    ensures Occurs(w, a + s + c)
  {
    var i :| 0 <= i <= |s| && At(s, i, w);
    assert (a + s + c)[|a| + i..|a| + i + |w|] == s[i..i + |w|];
    assert At(a + s + c, |a| + i, w);
  }

  lemma OccursFits(w: string, t: string)
    requires Occurs(w, t)
    ensures |w| <= |t|
  {
  }

  lemma OccursInTail(w: string, t: string)
    requires t != "" && Occurs(w, t[1..])
    ensures Occurs(w, t)
  {
    OccursInside(w, [t[0]], t[1..], "");
    assert [t[0]] + t[1..] + "" == t;
  }

  lemma OccursLater(w: string, t: string)
    requires t != "" && Occurs(w, t) && !(|w| <= |t| && t[..|w|] == w)
    ensures Occurs(w, t[1..])
  {
    assert !At(t, 0, w) by { assert |w| <= |t| ==> t[0..|w|] == t[..|w|]; }
    var i :| 0 <= i <= |t| && At(t, i, w);
    assert t[1..][i - 1..i - 1 + |w|] == t[i..i + |w|];
    assert At(t[1..], i - 1, w);
  }

  /** Where the literal occurs, its replacement does afterwards. */
  lemma {:induction false} ReplacementOccurs(t: string, w: string, v: string, s: string)
    requires w != "" && Occurs(w, t) && Occurs(s, v)
    ensures Occurs(s, Replace(t, w, v))
    decreases |t|
  {
    OccursFits(w, t);
    if t[..|w|] == w {
      var rest := Replace(t[|w|..], w, v);
      OccursInside(s, "", v, rest);
      assert "" + v + rest == v + rest;
    } else {
      OccursLater(w, t);
      ReplacementOccurs(t[1..], w, v, s);
      var rest := Replace(t[1..], w, v);
      OccursInside(s, [t[0]], rest, "");
      assert [t[0]] + rest + "" == [t[0]] + rest;
    }
  }

  lemma WordIsPlainly(w: string)
    requires BracketFree(w) && w != ""
    ensures Plainly(Is(w))
  {
  }

  lemma TermPassIsReplace(digest: string -> string, t: string, w: string)
    requires w != ""
    ensures GoodPass(TermPass(w))
    ensures PassText(digest, t, TermPass(w)) == Replace(t, w, Placeholder(digest, "CUSTOM", w))
  {
    LiteralFinderFinds(w);
    ReplaceIsRewrite(t, 0, w, Ph(digest, "CUSTOM"));
    assert t[0..] == t;
  }

  /** Replacing a word by something in brackets that does not hold it leaves none. */
  lemma ReplaceLeavesNone(t: string, w: string, ph: string)
    requires BracketFree(w) && w != "" && Fence(Is(w), ph)
    ensures NoMatch(Is(w), Replace(t, w, ph))
  {
    var same: string -> string := _ => ph;
    WordIsPlainly(w);
    LiteralFinderFinds(w);
    LiteralFindsLeftmost(w);
    OwnPassLeavesNone(Is(w), LiteralFinder(w), t, 0, same);
    ReplaceIsRewrite(t, 0, w, same);
    assert t[0..] == t;
  }

  lemma {:induction false} AbsentStays(t: string, w: string, v: string)
    requires w != "" && !Occurs(w, t)
    ensures Replace(t, w, v) == t
    decreases |t|
  {
    if |t| >= |w| {
      assert !At(t, 0, w) && t[0..|w|] == t[..|w|];
      if Occurs(w, t[1..]) { OccursInTail(w, t); }
      AbsentStays(t[1..], w, v);
      assert t == [t[0]] + t[1..];
    }
  }

  /** The exact condition, for every text: its own pass leaves a bracket-free term somewhere exactly when the
      text holds the term and its placeholder does too. */
  lemma TermStaysIff(digest: string -> string, t: string, w: string)
    requires IsDigest(digest) && BracketFree(w) && w != ""
    ensures GoodPass(TermPass(w))
    ensures NoMatch(Is(w), PassText(digest, t, TermPass(w)))
       <==> NoMatch(Is(w), t) || NoMatch(Is(w), Placeholder(digest, "CUSTOM", w))
  {
    var ph := Placeholder(digest, "CUSTOM", w);
    TermPassIsReplace(digest, t, w);
    OccursIsMatch(w, t);
    OccursIsMatch(w, ph);
    OccursIsMatch(w, Replace(t, w, ph));
    if !Occurs(w, t) {
      AbsentStays(t, w, ph);
    } else if !Occurs(w, ph) {
      PlaceholderShape(digest, "CUSTOM", w);
      ReplaceLeavesNone(t, w, ph);
    } else {
      ReplacementOccurs(t, w, ph, w);
    }
  }

  /** The word `CUSTOM` is in its own placeholder, whatever the hash. */
  lemma TermCustomStays(digest: string -> string, t: string)
    requires IsDigest(digest) && Occurs("CUSTOM", t)
    ensures GoodPass(TermPass("CUSTOM")) && !NoMatch(Is("CUSTOM"), PassText(digest, t, TermPass("CUSTOM")))
  {
    TagIsInside(digest, "CUSTOM", "CUSTOM");
    OccursIsMatch("CUSTOM", t);
    TermStaysIff(digest, t, "CUSTOM");
  }

  lemma TagIsInside(digest: string -> string, tag: string, m: string)
    ensures !NoMatch(Is(tag), Placeholder(digest, tag, m))
  {
    var ph := Placeholder(digest, tag, m);
    assert ph == "<" + tag + ("_" + digest(tag + m) + ">");
    assert ph[1..1 + |tag|] == tag;
    assert Is(tag)(ph[1..1 + |tag|]);
  }

  // ---------------------------------------------------------------- where it is left

  /** Part of a placeholder of the text. */
  predicate Inside(t: string, i: nat, j: nat) {
    exists a, b :: 0 <= a <= i && j <= b <= |t| && a <= b && IsPlaceholder(t[a..b])
  }

  ghost predicate AllInside(p: Pattern, t: string) {
    forall i, j :: 0 <= i <= j <= |t| && p(t[i..j]) ==> Inside(t, i, j)
  }

  /** No placeholder of the text is cut by the part from `i` to `j`. */
  predicate NotCut(t: string, i: nat, j: nat)
    requires i <= j <= |t|
  {
    forall a, b :: 0 <= a <= b <= |t| && IsPlaceholder(t[a..b]) ==> b <= i || j <= a || (i <= a && b <= j)
  }

  predicate Uncut(t: string, start: nat, spans: seq<(nat, nat)>)
    requires Placed(t, start, spans)
    decreases |spans|
  {
    spans == [] || (NotCut(t, spans[0].0, spans[0].1) && Uncut(t, spans[0].1, spans[1..]))
  }

  /** No pass cuts a placeholder of the text it finds. */
  ghost predicate UncutPasses(digest: string -> string, t: string, ps: seq<Pass>)
    requires GoodPasses(ps)
    decreases |ps|
  {
    if ps == [] then true
    else
      assert GoodPass(ps[0]);
      SpansPlaced(ps[0].find, t, 0);
      Uncut(t, 0, Spans(ps[0].find, t, 0)) && UncutPasses(digest, PassText(digest, t, ps[0]), ps[1..])
  }

  lemma InsideWider(a: string, s: string, c: string, i: nat, j: nat)
    requires Inside(s, i, j)
    ensures Inside(a + s + c, |a| + i, |a| + j)
  {
    var x, y :| 0 <= x <= i && j <= y <= |s| && x <= y && IsPlaceholder(s[x..y]);
    assert (a + s + c)[|a| + x..|a| + y] == s[x..y];
  }

  /** Around a placeholder: what was inside placeholders still is. */
  lemma PartsInside(p: Pattern, a: string, ph: string, b: string)
    requires Plainly(p) && AllInside(p, a) && AllInside(p, b) && IsPlaceholder(ph)
    ensures AllInside(p, a + ph + b)
  {
    var t, n := a + ph + b, |a| + |ph|;
    forall i, j | 0 <= i <= j <= |t| && p(t[i..j]) ensures Inside(t, i, j) {
      MatchIsInPart(p, a, ph, b, i, j);
      if j <= |a| {
        InsideWider("", a, ph + b, i, j);
        assert "" + a + (ph + b) == t;
      } else if n <= i {
        InsideWider(a + ph, b, "", i - n, j - n);
        assert a + ph + b + "" == t;
      } else {
        assert t[|a|..n] == ph;
      }
    }
  }

  /** Its own pass leaves a pattern inside placeholders only. */
  lemma {:induction false} OwnPassLeavesInside(p: Pattern, find: Finder, t: string, start: nat, ph: string -> string)
    requires Plainly(p) && MakesPlaceholders(ph) && FindsLeftmost(p, find) && start <= |t|
    ensures Placed(t, start, Spans(find, t, start))
    ensures AllInside(p, Rewrite(t, start, Spans(find, t, start), ph))
    decreases |t| - start
  {
    SpansPlaced(find, t, start);
    assert FindsAt(find, t, start) && LeftmostAt(p, find, t, start);
    match find(t, start) {
      case None =>
        RestHasNoMatch(p, t, start);
      case Some(m) =>
        SpansFirst(find, t, start);
        OwnPassLeavesInside(p, find, t, m.1, ph);
        RewriteFirst(t, start, Spans(find, t, start), ph);
        GapHasNoMatch(p, t, start, m.0);
        PartsInside(p, t[start..m.0], ph(t[m.0..m.1]), Rewrite(t, m.1, Spans(find, t, m.1), ph));
    }
  }

  /** A part that no span cuts off from its placeholders. */
  lemma PartAllInside(p: Pattern, t: string, start: nat, i: nat, j: nat)
    requires Plainly(p) && start <= i <= j <= |t| && AllInside(p, t[start..]) && NotCut(t, i, j)
    ensures AllInside(p, t[start..i]) && AllInside(p, t[j..])
  {
    forall x, y | 0 <= x <= y <= i - start && p(t[start..i][x..y]) ensures Inside(t[start..i], x, y) {
      SliceSlice(t, start, i, x, y);
      TailSlice(t, start, x, y);
      InsideFront(t, start, i, j, x, y);
    }
    forall x, y | 0 <= x <= y <= |t[j..]| && p(t[j..][x..y]) ensures Inside(t[j..], x, y) {
      TailSlice(t, j, x, y);
      TailSlice(t, start, j - start + x, j - start + y);
      InsideBehind(t, start, i, j, x, y);
    }
  }

  lemma InsideFront(t: string, start: nat, i: nat, j: nat, x: nat, y: nat)
    requires start <= i <= j <= |t| && NotCut(t, i, j) && x < y <= i - start && Inside(t[start..], x, y)
    ensures Inside(t[start..i], x, y)
  {
    var a, b :| 0 <= a <= x && y <= b <= |t[start..]| && a <= b && IsPlaceholder(t[start..][a..b]);
    TailSlice(t, start, a, b);
    assert start + b <= i;
    SliceSlice(t, start, i, a, b);
  }

  lemma InsideBehind(t: string, start: nat, i: nat, j: nat, x: nat, y: nat)
    requires start <= i <= j <= |t| && NotCut(t, i, j) && x < y <= |t[j..]|
    requires Inside(t[start..], j - start + x, j - start + y)
    ensures Inside(t[j..], x, y)
  {
    var n := j - start;
    var a, b :| 0 <= a <= n + x && n + y <= b <= |t[start..]| && a <= b && IsPlaceholder(t[start..][a..b]);
    TailSlice(t, start, a, b);
    assert j <= start + a;
    TailSlice(t, j, a - n, b - n);
  }

  lemma {:induction false} RewriteKeepsInside(p: Pattern, t: string, start: nat, spans: seq<(nat, nat)>,
                                              ph: string -> string)
    requires Plainly(p) && MakesPlaceholders(ph) && Placed(t, start, spans)
    requires Uncut(t, start, spans) && AllInside(p, t[start..])
    ensures AllInside(p, Rewrite(t, start, spans, ph))
    decreases |spans|
  {
    if spans != [] {
      var (i, j) := spans[0];
      PartAllInside(p, t, start, i, j);
      RewriteKeepsInside(p, t, j, spans[1..], ph);
      RewriteFirst(t, start, spans, ph);
      PartsInside(p, t[start..i], ph(t[i..j]), Rewrite(t, j, spans[1..], ph));
    }
  }

  lemma {:induction false} LaterPassesKeepInside(p: Pattern, digest: string -> string, b: Book, t: string,
                                                 ps: seq<Pass>)
    requires Plainly(p) && IsDigest(digest) && GoodPasses(ps) && AllInside(p, t) && UncutPasses(digest, t, ps)
    ensures AllInside(p, Redacted(digest, b, t, ps).0)
    decreases |ps|
  {
    if ps != [] {
      assert GoodPass(ps[0]);
      SpansPlaced(ps[0].find, t, 0);
      PhMakesPlaceholders(digest, ps[0].tag);
      assert t[0..] == t;
      RewriteKeepsInside(p, t, 0, Spans(ps[0].find, t, 0), Ph(digest, ps[0].tag));
      LaterPassesKeepInside(p, digest, PassBook(digest, b, t, ps[0]), PassText(digest, t, ps[0]), ps[1..]);
    }
  }

  /** The passes after pass `n` cut no placeholder. */
  ghost predicate UncutAfter(digest: string -> string, t: string, ps: seq<Pass>, n: nat)
    requires GoodPasses(ps) && n < |ps|
    decreases |ps|
  {
    assert GoodPass(ps[0]);
    var u := PassText(digest, t, ps[0]);
    if n == 0 then UncutPasses(digest, u, ps[1..]) else UncutAfter(digest, u, ps[1..], n - 1)
  }

  /** Over all passes: what is left of a pattern some pass looks for, and that has no brackets, lies inside a
      placeholder, unless a pass after that one cut one. */
  lemma {:induction false} PatternLeftIsInside(p: Pattern, digest: string -> string, b: Book, t: string,
                                               ps: seq<Pass>, n: nat)
    requires IsDigest(digest) && GoodPasses(ps) && n < |ps| && Plainly(p) && FindsLeftmost(p, ps[n].find)
    requires UncutAfter(digest, t, ps, n)
    ensures AllInside(p, Redacted(digest, b, t, ps).0)
    decreases |ps|
  {
    assert GoodPass(ps[0]);
    RedactedFirst(digest, b, t, ps);
    var u, c := PassText(digest, t, ps[0]), PassBook(digest, b, t, ps[0]);
    if n == 0 {
      PhMakesPlaceholders(digest, ps[0].tag);
      OwnPassLeavesInside(p, ps[0].find, t, 0, Ph(digest, ps[0].tag));
      LaterPassesKeepInside(p, digest, c, u, ps[1..]);
    } else {
      PatternLeftIsInside(p, digest, c, u, ps[1..], n - 1);
    }
  }

  /** Over all passes: what is left of a bracket-free term lies inside a placeholder, unless a pass after its
      own cut one. */
  lemma TermLeftIsInside(digest: string -> string, b: Book, t: string, ps: seq<Pass>, n: nat, w: string)
    requires IsDigest(digest) && GoodPasses(ps) && n < |ps| && ps[n] == TermPass(w) && BracketFree(w) && w != ""
    requires UncutAfter(digest, t, ps, n)
    ensures AllInside(Is(w), Redacted(digest, b, t, ps).0)
  {
    WordIsPlainly(w);
    LiteralFindsLeftmost(w);
    PatternLeftIsInside(Is(w), digest, b, t, ps, n);
  }
}
