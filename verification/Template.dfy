/** The round trip for any text, brackets or not. A redacted text is a template: characters of the original
    text, and tokens that stand for what was matched. Replacing a key fills its tokens, and touches the
    original characters only where they spell the key themselves. */
module Template {
  import opened Bytes
  import opened Redaction
  import opened RoundTrip

  datatype Item = Ch(c: char) | Tok(key: string)

  function Render(items: seq<Item>): string {
    if items == [] then "" else (if items[0].Ch? then [items[0].c] else items[0].key) + Render(items[1..])
  }

  /** The text with every token filled in. */
  function Restore(items: seq<Item>, rev: map<string, string>): string {
    if items == [] then ""
    else (if items[0].Ch? then [items[0].c] else Meaning(items[0].key, rev)) + Restore(items[1..], rev)
  }

  function Chars(s: string): (items: seq<Item>)
    ensures |items| == |s| && forall i :: 0 <= i < |s| ==> items[i] == Ch(s[i])
  {
    seq(|s|, i requires 0 <= i < |s| => Ch(s[i]))
  }

  /** Every token is a bracketed key of the table. */
  predicate Tokens(items: seq<Item>, rev: map<string, string>) {
    forall i :: 0 <= i < |items| && items[i].Tok? ==> items[i].key in rev && Bracketed(items[i].key)
  }

  lemma TokensPart(items: seq<Item>, rev: map<string, string>, n: nat, m: nat)
    requires Tokens(items, rev) && n <= m <= |items|
    ensures Tokens(items[n..m], rev)
  {
  }

  lemma {:induction false} RenderConcat(a: seq<Item>, b: seq<Item>, rev: map<string, string>)
    ensures Render(a + b) == Render(a) + Render(b) && Restore(a + b, rev) == Restore(a, rev) + Restore(b, rev)
  {
    if a == [] {
      assert a + b == b;
    } else {
      assert (a + b)[0] == a[0] && (a + b)[1..] == a[1..] + b;
      RenderConcat(a[1..], b, rev);
      Assoc(if a[0].Ch? then [a[0].c] else a[0].key, Render(a[1..]), Render(b));
      Assoc(if a[0].Ch? then [a[0].c] else Meaning(a[0].key, rev), Restore(a[1..], rev), Restore(b, rev));
    }
  }

  lemma {:induction false} CharsRender(s: string, rev: map<string, string>)
    ensures Render(Chars(s)) == s && Restore(Chars(s), rev) == s
  {
    if s != "" {
      assert Chars(s)[1..] == Chars(s[1..]);
      CharsRender(s[1..], rev);
      assert s == [s[0]] + s[1..];
    }
  }

  // ---------------------------------------------------------------- what the original characters spell

  /** The items from `p` on are characters that spell `s`. */
  predicate OwnAt(items: seq<Item>, p: nat, s: string) {
    p + |s| <= |items| && forall q :: 0 <= q < |s| ==> items[p + q] == Ch(s[q])
  }

  predicate HasOwn(items: seq<Item>, s: string) { exists p :: 0 <= p <= |items| && OwnAt(items, p, s) }

  lemma OwnPart(items: seq<Item>, p: nat, s: string, n: nat, m: nat)
    requires OwnAt(items, p, s) && n <= p && p + |s| <= m <= |items|
    ensures OwnAt(items[n..m], p - n, s)
  {
  }

  lemma OwnWider(a: seq<Item>, b: seq<Item>, c: seq<Item>, s: string)
    requires HasOwn(b, s)
    ensures HasOwn(a + b + c, s)
  {
    var p :| 0 <= p <= |b| && OwnAt(b, p, s);
    assert OwnAt(a + b + c, |a| + p, s);
  }

  lemma OwnTail(items: seq<Item>, s: string)
    requires items != []
    ensures HasOwn(items[1..], s) ==> HasOwn(items, s)
    ensures HasOwn(items, s) && !OwnAt(items, 0, s) ==> HasOwn(items[1..], s)
  {
    if HasOwn(items[1..], s) {
      OwnWider([items[0]], items[1..], [], s);
      assert [items[0]] + items[1..] + [] == items;
    }
    if HasOwn(items, s) && !OwnAt(items, 0, s) {
      var p :| 0 <= p <= |items| && OwnAt(items, p, s);
      OwnPart(items, p, s, 1, |items|);
      assert items[1..|items|] == items[1..];
    }
  }

  /** What the characters spell occurs in the text, however the tokens are filled. */
  lemma OwnOccurs(items: seq<Item>, s: string, rev: map<string, string>)
    requires HasOwn(items, s)
    ensures Occurs(s, Restore(items, rev)) && Occurs(s, Render(items))
  {
    var p :| 0 <= p <= |items| && OwnAt(items, p, s);
    var a, b, c := items[..p], items[p..p + |s|], items[p + |s|..];
    assert items == a + b + c && b == Chars(s);
    CharsRender(s, rev);
    RenderConcat(a, b, rev);
    RenderConcat(a + b, c, rev);
    Middle(Restore(a, rev), s, Restore(c, rev));
    Middle(Render(a), s, Render(c));
  }

  lemma Middle(a: string, s: string, c: string)
    ensures Occurs(s, a + s + c)
  {
    assert (a + s + c)[|a|..|a| + |s|] == s;
    assert At(a + s + c, |a|, s);
  }

  lemma CharsOwn(t: string, s: string)
    requires Occurs(s, t)
    ensures HasOwn(Chars(t), s)
  {
    var i :| 0 <= i <= |t| && At(t, i, s);
    forall q | 0 <= q < |s| ensures Chars(t)[i + q] == Ch(s[q]) { assert t[i..i + |s|][q] == t[i + q]; }
    assert OwnAt(Chars(t), i, s);
  }

  lemma FirstOpens(items: seq<Item>, rev: map<string, string>)
    requires Tokens(items, rev) && items != []
    ensures Render(items) != "" && (items[0].Tok? ==> Render(items)[0] == '<')
  {
    if items[0].Tok? { assert Bracketed(items[0].key); }
  }

  /** A string without opening brackets at the start of the text is spelled by its characters. */
  lemma {:induction false} PlainIsOwn(items: seq<Item>, s: string, rev: map<string, string>)
    requires Tokens(items, rev) && s <= Render(items) && forall i :: 0 <= i < |s| ==> s[i] != '<'
    ensures OwnAt(items, 0, s)
  {
    if s != "" {
      assert Render(items)[0] == s[0];
      FirstOpens(items, rev);
      assert Render(items)[1..] == Render(items[1..]);
      assert s[1..] <= Render(items[1..]);
      PlainIsOwn(items[1..], s[1..], rev);
      forall q | 0 <= q < |s| ensures items[q] == Ch(s[q]) {
        if q > 0 { assert items[1..][q - 1] == Ch(s[1..][q - 1]); }
      }
    }
  }

  // ---------------------------------------------------------------- replacing one key

  function Turn(items: seq<Item>, k: string, v: string): seq<Item>
    requires k != ""
    decreases |items|
  {
    if items == [] then []
    else if OwnAt(items, 0, k) then Chars(v) + Turn(items[|k|..], k, v)
    else if items[0] == Tok(k) then Chars(v) + Turn(items[1..], k, v)
    else [items[0]] + Turn(items[1..], k, v)
  }

  lemma NotAKey(items: seq<Item>, k: string, rev: map<string, string>)
    requires Tokens(items, rev) && Bracketed(k) && items != [] && items[0].Ch? && !OwnAt(items, 0, k)
    ensures !(k <= Render(items))
  {
    if k <= Render(items) {
      TokenTail(k);
      assert Render(items)[1..] == Render(items[1..]) && k[1..] <= Render(items)[1..];
      PlainIsOwn(items[1..], k[1..], rev);
      assert items[0] == Ch(k[0]);
      forall q | 0 <= q < |k| ensures items[q] == Ch(k[q]) {
        if q > 0 { assert items[1..][q - 1] == Ch(k[1..][q - 1]); }
      }
    }
  }

  /** Replacing a key in the text is a turn of the template. */
  lemma {:induction false} ReplaceIsTurn(items: seq<Item>, k: string, v: string, rev: map<string, string>)
    requires Tokens(items, rev) && Bracketed(k)
    ensures Replace(Render(items), k, v) == Render(Turn(items, k, v))
    decreases |items|
  {
    if items != [] {
      if OwnAt(items, 0, k) {
        var rest := items[|k|..];
        assert items == Chars(k) + rest;
        ReplaceIsTurn(rest, k, v, rev);
        CharsRender(k, rev);
        FilledIn(Chars(k), rest, k, v, Turn(rest, k, v), rev);
      } else if items[0] == Tok(k) {
        var rest := items[1..];
        assert items == [Tok(k)] + rest;
        ReplaceIsTurn(rest, k, v, rev);
        OneToken(k);
        FilledIn([Tok(k)], rest, k, v, Turn(rest, k, v), rev);
      } else if items[0].Tok? {
        ReplaceIsTurn(items[1..], k, v, rev);
        ReplaceThroughToken(items[0].key, Render(items[1..]), k, v);
        Head(items[0], Turn(items[1..], k, v));
      } else {
        ReplaceIsTurn(items[1..], k, v, rev);
        NotAKey(items, k, rev);
        ReplaceStep(Render(items), k, v);
        Head(items[0], Turn(items[1..], k, v));
        assert Render(items)[1..] == Render(items[1..]);
      }
    }
  }

  lemma OneToken(k: string)
    ensures Render([Tok(k)]) == k
  {
    assert [Tok(k)][1..] == [];
    assert Render([Tok(k)]) == k + "";
  }

  lemma Head(it: Item, rest: seq<Item>)
    ensures Render([it] + rest) == (if it.Ch? then [it.c] else it.key) + Render(rest)
  {
    assert ([it] + rest)[1..] == rest;
  }

  lemma FilledIn(a: seq<Item>, rest: seq<Item>, k: string, v: string, turned: seq<Item>, rev: map<string, string>)
    requires Bracketed(k) && Render(a) == k && Replace(Render(rest), k, v) == Render(turned)
    ensures Replace(Render(a + rest), k, v) == Render(Chars(v) + turned)
  {
    RenderConcat(a, rest, rev);
    RenderConcat(Chars(v), turned, rev);
    CharsRender(v, rev);
    ReplacePrefix(k + Render(rest), k, v);
    assert (k + Render(rest))[|k|..] == Render(rest);
  }

  // ---------------------------------------------------------------- what a turn keeps

  /** Only the tokens in `keys` are left. */
  predicate Left(items: seq<Item>, keys: seq<string>) {
    forall i :: 0 <= i < |items| && items[i].Tok? ==> items[i].key in keys
  }

  lemma {:induction false} TurnLeaves(items: seq<Item>, keys: seq<string>, v: string, rev: map<string, string>)
    requires keys != [] && keys[0] != "" && Left(items, keys) && Tokens(items, rev)
    ensures Left(Turn(items, keys[0], v), keys[1..]) && Tokens(Turn(items, keys[0], v), rev)
    decreases |items|
  {
    if items != [] {
      var n := if OwnAt(items, 0, keys[0]) then |keys[0]| else 1;
      TurnLeaves(items[n..], keys, v, rev);
      assert keys == [keys[0]] + keys[1..];
    }
  }

  /** When no original character run spells the key, the restored text stays the same. */
  lemma {:induction false} TurnRestores(items: seq<Item>, k: string, v: string, rev: map<string, string>)
    requires k in rev && rev[k] == v && k != "" && !HasOwn(items, k)
    ensures Restore(Turn(items, k, v), rev) == Restore(items, rev)
    decreases |items|
  {
    if items != [] {
      OwnTail(items, k);
      assert !OwnAt(items, 0, k);
      TurnRestores(items[1..], k, v, rev);
      if items[0] == Tok(k) {
        RenderConcat(Chars(v), Turn(items[1..], k, v), rev);
        CharsRender(v, rev);
      } else {
        assert ([items[0]] + Turn(items[1..], k, v))[1..] == Turn(items[1..], k, v);
      }
    }
  }

  lemma {:induction false} TurnKeepsRun(items: seq<Item>, k: string, v: string, s: string)
    requires k != "" && !HasOwn(items, k) && OwnAt(items, 0, s)
    ensures OwnAt(Turn(items, k, v), 0, s)
  {
    if s != "" {
      OwnTail(items, k);
      assert !OwnAt(items, 0, k) && items[0] == Ch(s[0]);
      OwnPart(items, 1, s[1..], 1, |items|) by {
        forall q | 0 <= q < |s[1..]| ensures items[1 + q] == Ch(s[1..][q]) { assert s[1..][q] == s[q + 1]; }
      }
      assert items[1..|items|] == items[1..];
      TurnKeepsRun(items[1..], k, v, s[1..]);
      forall q | 0 <= q < |s| ensures Turn(items, k, v)[q] == Ch(s[q]) {
        if q > 0 { assert Turn(items[1..], k, v)[q - 1] == Ch(s[1..][q - 1]); }
      }
    }
  }

  /** Another key that the characters spell is still spelled. */
  lemma {:induction false} TurnKeepsOwn(items: seq<Item>, k: string, v: string, s: string)
    requires k != "" && !HasOwn(items, k) && HasOwn(items, s)
    ensures HasOwn(Turn(items, k, v), s)
    decreases |items|
  {
    if OwnAt(items, 0, s) {
      TurnKeepsRun(items, k, v, s);
      assert OwnAt(Turn(items, k, v), 0, s);
    } else {
      OwnTail(items, k);
      OwnTail(items, s);
      assert !OwnAt(items, 0, k);
      TurnKeepsOwn(items[1..], k, v, s);
      var rest := Turn(items[1..], k, v);
      var head := if items[0] == Tok(k) then Chars(v) else [items[0]];
      OwnWider(head, rest, [], s);
      assert head + rest + [] == head + rest == Turn(items, k, v);
    }
  }

  // ---------------------------------------------------------------- counting brackets

  function Opens(s: string): nat { if s == "" then 0 else (if s[0] == '<' then 1 else 0) + Opens(s[1..]) }

  function OwnOpens(items: seq<Item>): nat {
    if items == [] then 0 else (if items[0] == Ch('<') then 1 else 0) + OwnOpens(items[1..])
  }

  lemma {:induction false} OpensConcat(s: string, t: string)
    ensures Opens(s + t) == Opens(s) + Opens(t)
  {
    if s == "" {
      assert s + t == t;
    } else {
      OpensConcat(s[1..], t);
      assert (s + t)[0] == s[0] && (s + t)[1..] == s[1..] + t;
    }
  }

  lemma {:induction false} OwnOpensConcat(a: seq<Item>, b: seq<Item>)
    ensures OwnOpens(a + b) == OwnOpens(a) + OwnOpens(b)
  {
    if a == [] {
      assert a + b == b;
    } else {
      OwnOpensConcat(a[1..], b);
      assert (a + b)[0] == a[0] && (a + b)[1..] == a[1..] + b;
    }
  }

  lemma {:induction false} CharsOpens(s: string)
    ensures OwnOpens(Chars(s)) == Opens(s) && (BracketFree(s) ==> Opens(s) == 0)
  {
    if s != "" {
      assert Chars(s)[1..] == Chars(s[1..]);
      CharsOpens(s[1..]);
      if BracketFree(s) { BracketFreeTail(s); }
    }
  }

  /** Fillings have no brackets, so all brackets of the restored text are original characters. */
  lemma {:induction false} RestoreOpens(items: seq<Item>, rev: map<string, string>)
    requires GoodMap(rev) && Tokens(items, rev)
    ensures Opens(Restore(items, rev)) == OwnOpens(items)
  {
    if items != [] {
      TokensPart(items, rev, 1, |items|);
      assert items[1..|items|] == items[1..];
      RestoreOpens(items[1..], rev);
      if items[0].Ch? {
        OpensConcat([items[0].c], Restore(items[1..], rev));
        assert Opens([items[0].c]) == if items[0].c == '<' then 1 else 0;
      } else {
        CharsOpens(rev[items[0].key]);
        OpensConcat(rev[items[0].key], Restore(items[1..], rev));
      }
    }
  }

  /** A turn never adds a bracket, and takes one away when the characters spell the key. */
  lemma {:induction false} TurnOpens(items: seq<Item>, k: string, v: string)
    requires Bracketed(k) && BracketFree(v)
    ensures OwnOpens(Turn(items, k, v)) <= OwnOpens(items)
    ensures HasOwn(items, k) ==> OwnOpens(Turn(items, k, v)) < OwnOpens(items)
    decreases |items|
  {
    if items == [] {
    } else if OwnAt(items, 0, k) {
      var rest := items[|k|..];
      assert items == Chars(k) + rest;
      TurnOpens(rest, k, v);
      OwnOpensConcat(Chars(k), rest);
      OwnOpensConcat(Chars(v), Turn(rest, k, v));
      CharsOpens(k);
      CharsOpens(v);
    } else {
      TurnOpens(items[1..], k, v);
      OwnTail(items, k);
      var head := if items[0] == Tok(k) then Chars(v) else [items[0]];
      OwnOpensConcat(head, Turn(items[1..], k, v));
      CharsOpens(v);
      assert items[0] != Tok(k) ==> OwnOpens([items[0]]) == if items[0] == Ch('<') then 1 else 0;
    }
  }

  // ---------------------------------------------------------------- replacing all keys

  predicate InTable(keys: seq<string>, rev: map<string, string>) { forall k :: k in keys ==> k in rev }

  lemma NextTurn(items: seq<Item>, keys: seq<string>, rev: map<string, string>)
    requires GoodMap(rev) && InTable(keys, rev) && keys != [] && Tokens(items, rev) && Left(items, keys)
    ensures var next := Turn(items, keys[0], rev[keys[0]]);
            && InTable(keys[1..], rev) && Tokens(next, rev) && Left(next, keys[1..])
            && Sequential(Render(items), keys, rev) == Sequential(Render(next), keys[1..], rev)
  {
    ReplaceIsTurn(items, keys[0], rev[keys[0]], rev);
    TurnLeaves(items, keys, rev[keys[0]], rev);
  }

  lemma {:induction false} NoTokens(items: seq<Item>, rev: map<string, string>)
    requires Left(items, [])
    ensures Render(items) == Restore(items, rev)
  {
    if items != [] {
      assert items[0].Ch?;
      NoTokens(items[1..], rev);
    }
  }

  /** When no key occurs in the restored text, replacing all keys restores it. */
  lemma {:induction false} SequentialRestores(items: seq<Item>, keys: seq<string>, rev: map<string, string>)
    requires GoodMap(rev) && InTable(keys, rev) && Tokens(items, rev) && Left(items, keys)
    requires forall k :: k in keys ==> !Occurs(k, Restore(items, rev))
    ensures Sequential(Render(items), keys, rev) == Restore(items, rev)
    decreases |keys|
  {
    if keys == [] {
      NoTokens(items, rev);
    } else {
      var k := keys[0];
      if HasOwn(items, k) { OwnOccurs(items, k, rev); }
      NextTurn(items, keys, rev);
      TurnRestores(items, k, rev[k], rev);
      SequentialRestores(Turn(items, k, rev[k]), keys[1..], rev);
    }
  }

  /** When the characters spell a key, replacing all keys takes a bracket away. */
  lemma {:induction false} SequentialOpens(items: seq<Item>, keys: seq<string>, rev: map<string, string>)
    requires GoodMap(rev) && InTable(keys, rev) && Tokens(items, rev) && Left(items, keys)
    ensures Opens(Sequential(Render(items), keys, rev)) <= OwnOpens(items)
    ensures (exists k :: k in keys && HasOwn(items, k)) ==>
              Opens(Sequential(Render(items), keys, rev)) < OwnOpens(items)
    decreases |keys|
  {
    if keys == [] {
      NoTokens(items, rev);
      RestoreOpens(items, rev);
    } else {
      var k := keys[0];
      NextTurn(items, keys, rev);
      TurnOpens(items, k, rev[k]);
      SequentialOpens(Turn(items, k, rev[k]), keys[1..], rev);
      if !HasOwn(items, k) { StillSome(items, keys, rev[k]); }
    }
  }

  lemma StillSome(items: seq<Item>, keys: seq<string>, v: string)
    requires keys != [] && keys[0] != "" && !HasOwn(items, keys[0])
    ensures forall s :: s in keys && HasOwn(items, s) ==> s in keys[1..] && HasOwn(Turn(items, keys[0], v), s)
  {
    forall s | s in keys && HasOwn(items, s) ensures s in keys[1..] && HasOwn(Turn(items, keys[0], v), s) {
      assert keys == [keys[0]] + keys[1..];
      TurnKeepsOwn(items, keys[0], v, s);
    }
  }

  /** The characters spell every key that occurs in the restored text. */
  predicate Spelled(items: seq<Item>, rev: map<string, string>) {
    forall k :: k in rev && Occurs(k, Restore(items, rev)) ==> HasOwn(items, k)
  }

  /** Rehydration restores such a template exactly when no key occurs in the restored text. */
  lemma TemplateComesBackIff(items: seq<Item>, rev: map<string, string>, keys: seq<string>)
    requires GoodMap(rev) && Tokens(items, rev) && Spelled(items, rev) && KeyOrder(keys, rev)
    ensures Sequential(Render(items), keys, rev) == Restore(items, rev)
       <==> forall k :: k in rev ==> !Occurs(k, Restore(items, rev))
  {
    if forall k :: k in rev ==> !Occurs(k, Restore(items, rev)) {
      SequentialRestores(items, keys, rev);
    } else {
      var k :| k in rev && Occurs(k, Restore(items, rev));
      assert k in keys && HasOwn(items, k);
      SequentialOpens(items, keys, rev);
      RestoreOpens(items, rev);
    }
  }

  /** On any text at all, rehydration changes nothing exactly when no key of the table occurs in it. */
  lemma RehydrateChangesNothingIff(t: string, rev: map<string, string>, keys: seq<string>)
    requires GoodMap(rev) && KeyOrder(keys, rev)
    ensures Sequential(t, keys, rev) == t <==> forall k :: k in rev ==> !Occurs(k, t)
  {
    CharsRender(t, rev);
    forall k | k in rev && Occurs(k, t) ensures HasOwn(Chars(t), k) { CharsOwn(t, k); }
    TemplateComesBackIff(Chars(t), rev, keys);
  }

  // ---------------------------------------------------------------- redacting a template

  /** No key of the table occurs in `u` around the part from `i` to `j`. */
  predicate Clear(u: string, i: nat, j: nat, rev: map<string, string>)
    requires i <= j <= |u|
  {
    forall a, b :: 0 <= a <= i && j <= b <= |u| ==> u[a..b] !in rev
  }

  /** No match has a bracket or lies inside a key of the table. */
  predicate Apart(u: string, start: nat, spans: seq<(nat, nat)>, rev: map<string, string>)
    requires Placed(u, start, spans)
    decreases |spans|
  {
    spans == [] ||
    var (i, j) := spans[0];
    BracketFree(u[i..j]) && Clear(u, i, j, rev) && Apart(u, j, spans[1..], rev)
  }

  /** A match that lies inside no key is spelled by consecutive characters of the template. */
  lemma {:induction false} Locate(u: string, start: nat, items: seq<Item>, i: nat, j: nat, rev: map<string, string>)
    returns (n: nat)
    requires Tokens(items, rev) && start <= i < j <= |u| && Render(items) == u[start..]
    requires BracketFree(u[i..j]) && Clear(u, i, j, rev)
    ensures OwnAt(items, n, u[i..j])
    ensures Render(items[..n]) == u[start..i] && Render(items[n + (j - i)..]) == u[j..]
    decreases |items|
  {
    if i == start {
      n := 0;
      LocatedHere(u, i, j, items, rev);
    } else {
      var next := NextItem(u, start, items, i, j, rev);
      var m := Locate(u, next, items[1..], i, j, rev);
      n := m + 1;
      LocatedLater(u, start, next, i, j, items, m, rev);
    }
  }

  /** The first item ends before the part does, so the search goes on behind it. */
  lemma NextItem(u: string, start: nat, items: seq<Item>, i: nat, j: nat, rev: map<string, string>) returns (next: nat)
    requires Tokens(items, rev) && start < i < j <= |u| && Render(items) == u[start..]
    requires BracketFree(u[i..j]) && Clear(u, i, j, rev)
    ensures items != [] && start < next <= i && Tokens(items[1..], rev) && Render(items[1..]) == u[next..]
    ensures u[start..next] == if items[0].Ch? then [items[0].c] else items[0].key
  {
    HeadText(u, start, items);
    next := start + if items[0].Ch? then 1 else |items[0].key|;
    if items[0].Tok? { InsideToken(u, start, i, j, items[0].key, rev); }
    TokensPart(items, rev, 1, |items|);
    assert items[1..|items|] == items[1..];
  }

  lemma LocatedHere(u: string, i: nat, j: nat, items: seq<Item>, rev: map<string, string>)
    requires i < j <= |u| && Render(items) == u[i..] && Tokens(items, rev) && BracketFree(u[i..j])
    ensures OwnAt(items, 0, u[i..j])
    ensures Render(items[..0]) == u[i..i] && Render(items[j - i..]) == u[j..]
  {
    var m := u[i..j];
    assert m <= u[i..];
    PlainIsOwn(items, m, rev);
    assert items == Chars(m) + items[|m|..];
    RenderConcat(Chars(m), items[|m|..], rev);
    CharsRender(m, rev);
    assert u[i..] == m + u[j..];
    SameTail(m, Render(items[|m|..]), u[j..]);
  }

  lemma SameTail(m: string, x: string, y: string)
    requires m + x == m + y
    ensures x == y
  {
    assert x == (m + x)[|m|..] && y == (m + y)[|m|..];
  }

  lemma HeadText(u: string, start: nat, items: seq<Item>)
    requires start < |u| && Render(items) == u[start..]
    ensures items != []
    ensures var size := if items[0].Ch? then 1 else |items[0].key|;
            && start + size <= |u| && Render(items[1..]) == u[start + size..]
            && u[start..start + size] == if items[0].Ch? then [items[0].c] else items[0].key
  {
    var head := if items[0].Ch? then [items[0].c] else items[0].key;
    assert Render(items) == head + Render(items[1..]);
    assert u[start..][..|head|] == head && u[start..][|head|..] == Render(items[1..]);
  }

  /** A plain part cannot start inside a token: it would end there too, inside a key of the table. */
  lemma InsideToken(u: string, start: nat, i: nat, j: nat, key: string, rev: map<string, string>)
    requires start < i < j <= |u| && start + |key| <= |u| && u[start..start + |key|] == key && Bracketed(key)
    requires key in rev && BracketFree(u[i..j]) && Clear(u, i, j, rev)
    ensures start + |key| <= i
  {
    var last := start + |key| - 1;
    assert u[last] == u[start..start + |key|][|key| - 1] == '>';
    assert forall q :: i <= q < j ==> u[q] == u[i..j][q - i];
    assert u[start..start + |key|] in rev;
  }

  lemma LocatedLater(u: string, start: nat, next: nat, i: nat, j: nat, items: seq<Item>, m: nat,
                     rev: map<string, string>)
    requires start < next <= i < j <= |u| && items != [] && OwnAt(items[1..], m, u[i..j])
    requires u[start..next] == if items[0].Ch? then [items[0].c] else items[0].key
    requires Render(items[1..][..m]) == u[next..i] && Render(items[1..][m + (j - i)..]) == u[j..]
    ensures OwnAt(items, m + 1, u[i..j])
    ensures Render(items[..m + 1]) == u[start..i] && Render(items[m + 1 + (j - i)..]) == u[j..]
  {
    var s := u[i..j];
    forall q | 0 <= q < |s| ensures items[m + 1 + q] == Ch(s[q]) { assert items[1..][m + q] == Ch(s[q]); }
    OneFurther(items, m, j - i);
    Head(items[0], items[1..][..m]);
    assert u[start..i] == u[start..next] + u[next..i];
  }

  lemma OneFurther(items: seq<Item>, m: nat, len: nat)
    requires m + len < |items|
    ensures items[..m + 1] == [items[0]] + items[1..][..m] && items[m + 1 + len..] == items[1..][m + len..]
  {
  }

  /** Rewriting the text of a template gives the text of a template with the same restored text, in which
      the characters still spell what keys they spelled. */
  lemma {:induction false} LiftPass(u: string, start: nat, items: seq<Item>, spans: seq<(nat, nat)>,
                                    ph: string -> string, rev: map<string, string>)
    returns (lifted: seq<Item>)
    requires Placed(u, start, spans) && Apart(u, start, spans, rev) && Faithful(rev, u, start, spans, ph)
    requires GoodMap(rev) && Tokens(items, rev) && Render(items) == u[start..]
    ensures Render(lifted) == Rewrite(u, start, spans, ph) && Restore(lifted, rev) == Restore(items, rev)
    ensures Tokens(lifted, rev) && forall k :: k in rev && HasOwn(items, k) ==> HasOwn(lifted, k)
    decreases |spans|
  {
    if spans == [] {
      lifted := items;
    } else {
      var (i, j) := spans[0];
      var n := Locate(u, start, items, i, j, rev);
      TokensPart(items, rev, n + (j - i), |items|);
      assert items[n + (j - i)..|items|] == items[n + (j - i)..];
      var c := LiftPass(u, j, items[n + (j - i)..], spans[1..], ph, rev);
      RewriteFirst(u, start, spans, ph);
      lifted := items[..n] + [Tok(ph(u[i..j]))] + c;
      Lifted(u, start, items, i, j, n, ph(u[i..j]), c, rev);
      forall k | k in rev && HasOwn(items, k) ensures HasOwn(lifted, k) {
        SpelledBeside(u, start, items, i, j, n, k, rev);
        StillSpelled(items[..n], Tok(ph(u[i..j])), c, k);
      }
    }
  }

  lemma StillSpelled(a: seq<Item>, it: Item, c: seq<Item>, k: string)
    requires HasOwn(a, k) || HasOwn(c, k)
    ensures HasOwn(a + [it] + c, k)
  {
    if HasOwn(a, k) { OwnWider([], a, [it] + c, k); } else { OwnWider(a + [it], c, [], k); }
    assert [] + a + ([it] + c) == a + [it] + c == a + [it] + c + [];
  }

  /** One match turned into a token. */
  lemma Lifted(u: string, start: nat, items: seq<Item>, i: nat, j: nat, n: nat, p: string, c: seq<Item>,
               rev: map<string, string>)
    requires start <= i < j <= |u| && OwnAt(items, n, u[i..j]) && Render(items[..n]) == u[start..i]
    requires GoodMap(rev) && Tokens(items, rev) && Tokens(c, rev) && p in rev && rev[p] == u[i..j]
    requires Restore(c, rev) == Restore(items[n + (j - i)..], rev)
    ensures var lifted := items[..n] + [Tok(p)] + c;
            && Render(lifted) == u[start..i] + p + Render(c) && Restore(lifted, rev) == Restore(items, rev)
            && Tokens(lifted, rev)
  {
    var a, m, b := items[..n], u[i..j], items[n + (j - i)..];
    RenderAround(a, p, c, rev);
    OwnParts(items, n, m);
    SameRestored(a, m, b, c, p, rev);
    TokensPart(items, rev, 0, n);
    assert items[0..n] == a;
    TokensAround(a, p, c, rev);
  }

  lemma RenderAround(a: seq<Item>, p: string, c: seq<Item>, rev: map<string, string>)
    ensures Render(a + [Tok(p)] + c) == Render(a) + p + Render(c)
  {
    OneToken(p);
    RenderConcat(a, [Tok(p)], rev);
    RenderConcat(a + [Tok(p)], c, rev);
  }

  lemma TokensAround(a: seq<Item>, p: string, c: seq<Item>, rev: map<string, string>)
    requires Tokens(a, rev) && Tokens(c, rev) && p in rev && Bracketed(p)
    ensures Tokens(a + [Tok(p)] + c, rev)
  {
  }

  lemma SameRestored(a: seq<Item>, m: string, b: seq<Item>, c: seq<Item>, p: string, rev: map<string, string>)
    requires p in rev && rev[p] == m && Restore(c, rev) == Restore(b, rev)
    ensures Restore(a + [Tok(p)] + c, rev) == Restore(a + Chars(m) + b, rev)
  {
    RestoreThree(a, [Tok(p)], c, rev);
    RestoreThree(a, Chars(m), b, rev);
    CharsRender(m, rev);
    TokenRestored(p, rev);
  }

  lemma RestoreThree(a: seq<Item>, m: seq<Item>, b: seq<Item>, rev: map<string, string>)
    ensures Restore(a + m + b, rev) == Restore(a, rev) + Restore(m, rev) + Restore(b, rev)
  {
    RenderConcat(a, m, rev);
    RenderConcat(a + m, b, rev);
  }

  lemma TokenRestored(p: string, rev: map<string, string>)
    requires p in rev
    ensures Restore([Tok(p)], rev) == rev[p]
  {
    assert [Tok(p)][1..] == [] && Restore([Tok(p)], rev) == rev[p] + "";
  }

  /** A key that the characters spell lies in front of the match or behind it. */
  lemma SpelledBeside(u: string, start: nat, items: seq<Item>, i: nat, j: nat, n: nat, k: string,
                      rev: map<string, string>)
    requires GoodMap(rev) && k in rev && HasOwn(items, k) && start <= i < j <= |u| && Render(items) == u[start..]
    requires BracketFree(u[i..j]) && Clear(u, i, j, rev) && OwnAt(items, n, u[i..j])
    requires Render(items[..n]) == u[start..i] && Render(items[n + (j - i)..]) == u[j..]
    ensures HasOwn(items[..n], k) || HasOwn(items[n + (j - i)..], k)
  {
    var p :| 0 <= p <= |items| && OwnAt(items, p, k);
    var e := n + (j - i);
    if p + |k| <= n {
      OwnPart(items, p, k, 0, n);
      assert items[0..n] == items[..n];
    } else if e <= p {
      OwnPart(items, p, k, e, |items|);
      assert items[e..|items|] == items[e..];
    } else {
      Encloses(u, start, items, i, j, n, p, k, rev);
    }
  }

  lemma PlainRun(items: seq<Item>, n: nat, m: string)
    requires OwnAt(items, n, m) && BracketFree(m)
    ensures forall x :: n <= x < n + |m| ==> items[x] != Ch('<') && items[x] != Ch('>')
  {
    forall x | n <= x < n + |m| ensures items[x] != Ch('<') && items[x] != Ch('>') {
      assert items[n + (x - n)] == Ch(m[x - n]);
    }
  }

  lemma KeyEnds(items: seq<Item>, p: nat, k: string)
    requires Bracketed(k) && OwnAt(items, p, k)
    ensures items[p] == Ch('<') && items[p + |k| - 1] == Ch('>')
  {
    assert items[p + (|k| - 1)] == Ch(k[|k| - 1]);
  }

  /** Its brackets are on either side of a plain run that it meets. */
  lemma KeyAround(items: seq<Item>, n: nat, m: string, p: nat, k: string)
    requires OwnAt(items, n, m) && BracketFree(m) && Bracketed(k) && OwnAt(items, p, k)
    requires n < p + |k| && p < n + |m|
    ensures p < n && n + |m| < p + |k|
  {
    KeyEnds(items, p, k);
    PlainRun(items, n, m);
  }

  lemma Encloses(u: string, start: nat, items: seq<Item>, i: nat, j: nat, n: nat, p: nat, k: string,
                 rev: map<string, string>)
    requires Bracketed(k) && OwnAt(items, p, k) && start <= i < j <= |u| && Render(items) == u[start..]
    requires BracketFree(u[i..j]) && OwnAt(items, n, u[i..j]) && n < p + |k| && p < n + (j - i)
    requires Render(items[..n]) == u[start..i] && Render(items[n + (j - i)..]) == u[j..]
    ensures !Clear(u, i, j, rev) || k !in rev
  {
    var e := n + (j - i);
    KeyAround(items, n, u[i..j], p, k);
    KeyText(u, start, items, p, k, rev);
    Shorter(items, p, n, rev);
    Shorter(items, e, p + |k|, rev);
    var a := start + |Render(items[..p])|;
    assert u[a..a + |k|] == k;
    WholeLength(items, e, rev);
    assert a <= i && j <= a + |k| <= |u|;
  }

  lemma KeyText(u: string, start: nat, items: seq<Item>, p: nat, k: string, rev: map<string, string>)
    requires OwnAt(items, p, k) && start <= |u| && Render(items) == u[start..]
    ensures var a := start + |Render(items[..p])|; a + |k| <= |u| && u[a..a + |k|] == k
    ensures |Render(items[..p + |k|])| == |Render(items[..p])| + |k|
  {
    var x, z := items[..p], items[p + |k|..];
    OwnParts(items, p, k);
    RenderConcat(x, Chars(k), rev);
    RenderConcat(x + Chars(k), z, rev);
    CharsRender(k, rev);
    InMiddle(u, start, Render(x), k, Render(z));
  }

  lemma OwnParts(items: seq<Item>, p: nat, k: string)
    requires OwnAt(items, p, k)
    ensures items[..p + |k|] == items[..p] + Chars(k) && items == items[..p] + Chars(k) + items[p + |k|..]
  {
    assert items[p..p + |k|] == Chars(k);
  }

  lemma InMiddle(u: string, start: nat, x: string, k: string, z: string)
    requires start <= |u| && u[start..] == x + k + z
    ensures start + |x| + |k| <= |u| && u[start + |x|..start + |x| + |k|] == k
  {
    assert u[start..][|x|..|x| + |k|] == k;
  }

  lemma Shorter(items: seq<Item>, p: nat, n: nat, rev: map<string, string>)
    requires p <= n <= |items|
    ensures |Render(items[..p])| <= |Render(items[..n])|
  {
    assert items[..n] == items[..p] + items[p..n];
    RenderConcat(items[..p], items[p..n], rev);
  }

  lemma WholeLength(items: seq<Item>, e: nat, rev: map<string, string>)
    requires e <= |items|
    ensures |Render(items)| == |Render(items[..e])| + |Render(items[e..])|
  {
    assert items == items[..e] + items[e..];
    RenderConcat(items[..e], items[e..], rev);
  }

  // ---------------------------------------------------------------- the round trip

  /** On the text each pass finds: no match has a bracket or lies inside a key of the table, and every
      match is what its placeholder stands for in the table. */
  ghost predicate SafeFor(digest: string -> string, t: string, ps: seq<Pass>, rev: map<string, string>)
    requires GoodPasses(ps)
    decreases |ps|
  {
    if ps == [] then true
    else
      assert GoodPass(ps[0]);
      SpansPlaced(ps[0].find, t, 0);
      var spans := Spans(ps[0].find, t, 0);
      && Apart(t, 0, spans, rev) && NoCollision(rev, t, 0, spans, Ph(digest, ps[0].tag))
      && SafeFor(digest, PassText(digest, t, ps[0]), ps[1..], rev)
  }

  lemma {:induction false} LiftPasses(digest: string -> string, b: Book, t: string, ps: seq<Pass>,
                                      rev: map<string, string>, items: seq<Item>)
    returns (lifted: seq<Item>)
    requires IsDigest(digest) && GoodPasses(ps) && GoodMap(rev) && SafeFor(digest, t, ps, rev)
    requires Knows(rev, Redacted(digest, b, t, ps).1) && Tokens(items, rev) && Render(items) == t
    ensures Render(lifted) == Redacted(digest, b, t, ps).0 && Restore(lifted, rev) == Restore(items, rev)
    ensures Tokens(lifted, rev) && forall k :: k in rev && HasOwn(items, k) ==> HasOwn(lifted, k)
    decreases |ps|
  {
    if ps == [] {
      lifted := items;
    } else {
      assert GoodPass(ps[0]);
      SpansPlaced(ps[0].find, t, 0);
      PassIsFaithful(digest, b, t, ps, rev);
      assert t[0..] == t;
      var next := LiftPass(t, 0, items, Spans(ps[0].find, t, 0), Ph(digest, ps[0].tag), rev);
      lifted := LiftPasses(digest, PassBook(digest, b, t, ps[0]), PassText(digest, t, ps[0]), ps[1..], rev, next);
    }
  }

  /** The theorem, for any text whatever: redacted by passes that touch no key of the table and meet no hash
      collision, it is rehydrated to itself exactly when no key of the table occurs in it, for every
      longest-first order of the keys and with any plain mappings learnt before or later. */
  lemma RehydrateUndoesRedactIff(digest: string -> string, b: Book, t: string, ps: seq<Pass>, rev: map<string, string>,
                                 keys: seq<string>)
    requires IsDigest(digest) && GoodPasses(ps) && GoodMap(rev) && SafeFor(digest, t, ps, rev)
    requires Knows(rev, Redacted(digest, b, t, ps).1) && KeyOrder(keys, rev)
    ensures Sequential(Redacted(digest, b, t, ps).0, keys, rev) == t <==> forall k :: k in rev ==> !Occurs(k, t)
  {
    CharsRender(t, rev);
    var items := LiftPasses(digest, b, t, ps, rev, Chars(t));
    forall k | k in rev && Occurs(k, Restore(items, rev)) ensures HasOwn(items, k) { CharsOwn(t, k); }
    TemplateComesBackIff(items, rev, keys);
  }

  /** A text without brackets holds no key. */
  lemma PlainHoldsNoKey(t: string, rev: map<string, string>)
    requires BracketFree(t) && GoodMap(rev)
    ensures forall k :: k in rev ==> !Occurs(k, t)
  {
    forall k | k in rev ensures !Occurs(k, t) {
      forall i | 0 <= i <= |t| ensures !At(t, i, k) {
        assert i + |k| <= |t| ==> t[i..i + |k|][0] == t[i];
      }
    }
  }

  /** No pass finds anything. */
  ghost predicate FindsNothing(ps: seq<Pass>, t: string)
    requires GoodPasses(ps)
  {
    forall i :: 0 <= i < |ps| ==> GoodPass(ps[i]) && Spans(ps[i].find, t, 0) == []
  }

  lemma {:induction false} NothingRedacted(digest: string -> string, b: Book, t: string, ps: seq<Pass>)
    requires GoodPasses(ps) && FindsNothing(ps, t)
    ensures Redacted(digest, b, t, ps) == (t, b)
    decreases |ps|
  {
    if ps != [] {
      assert GoodPass(ps[0]) && Spans(ps[0].find, t, 0) == [] && t[0..] == t;
      RedactedFirst(digest, b, t, ps);
      forall i | 0 <= i < |ps[1..]| ensures GoodPass(ps[1..][i]) && Spans(ps[1..][i].find, t, 0) == [] {
        assert ps[1..][i] == ps[i + 1];
      }
      NothingRedacted(digest, b, t, ps[1..]);
    }
  }

  /** A text no pass touches: it comes back exactly when it holds no key of the table. */
  lemma UntouchedComesBackIff(digest: string -> string, b: Book, t: string, ps: seq<Pass>, keys: seq<string>)
    requires GoodPasses(ps) && FindsNothing(ps, t) && GoodBook(b)
    requires KeyOrder(keys, Redacted(digest, b, t, ps).1.rev)
    ensures var (u, c) := Redacted(digest, b, t, ps);
            Sequential(u, keys, c.rev) == t <==> forall k :: k in b.rev ==> !Occurs(k, t)
  {
    NothingRedacted(digest, b, t, ps);
    RehydrateChangesNothingIff(t, b.rev, keys);
  }
}
