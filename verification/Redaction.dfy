/** Redaction as text rewriting: matches become placeholders, and a table remembers what they were. */
module Redaction {
  import opened Bytes

  // ---------------------------------------------------------------- matchers

  /** A matcher finds the next non-empty match at or after a position, like `Regex::find_at`. */
  type Finder = (string, nat) -> Option<(nat, nat)>

  ghost predicate FindsAt(find: Finder, t: string, start: nat)
    requires start <= |t|
  {
    find(t, start).Some? ==> start <= find(t, start).value.0 < find(t, start).value.1 <= |t|
  }

  ghost predicate IsFinder(find: Finder) {
    forall t: string, start: nat :: start <= |t| ==> FindsAt(find, t, start)
  }

  /** All matches from `start` on, each search resuming where the last match ended. */
  ghost function Spans(find: Finder, t: string, start: nat): seq<(nat, nat)>
    requires IsFinder(find) && start <= |t|
    decreases |t| - start
  {
    assert FindsAt(find, t, start);
    match find(t, start)
    case None => []
    case Some(m) => [m] + Spans(find, t, m.1)
  }

  /** Spans follow one another without overlapping. */
  predicate Placed(t: string, start: nat, spans: seq<(nat, nat)>)
    decreases |spans|
  {
    if spans == [] then start <= |t|
    else start <= spans[0].0 < spans[0].1 <= |t| && Placed(t, spans[0].1, spans[1..])
  }

  lemma {:induction false} SpansPlaced(find: Finder, t: string, start: nat)
    requires IsFinder(find) && start <= |t|
    ensures Placed(t, start, Spans(find, t, start))
    decreases |t| - start
  {
    assert FindsAt(find, t, start);
    match find(t, start) {
      case None =>
      case Some(m) => SpansPlaced(find, t, m.1);
    }
  }

  /** The text from `start` on with every span replaced. */
  function Rewrite(t: string, start: nat, spans: seq<(nat, nat)>, ph: string -> string): string
    requires Placed(t, start, spans)
    decreases |spans|
  {
    if spans == [] then t[start..]
    else t[start..spans[0].0] + ph(t[spans[0].0..spans[0].1]) + Rewrite(t, spans[0].1, spans[1..], ph)
  }

  // ---------------------------------------------------------------- literal replacement

  /** `str::replace`: every non-overlapping occurrence, leftmost first. */
  function Replace(t: string, key: string, value: string): string
    requires key != []
    decreases |t|
  {
    if |t| < |key| then t
    else if t[..|key|] == key then value + Replace(t[|key|..], key, value)
    else [t[0]] + Replace(t[1..], key, value)
  }

  function FindLiteral(literal: string, t: string, start: nat): (r: Option<(nat, nat)>)
    ensures r.Some? ==> start <= r.value.0 && r.value.1 == r.value.0 + |literal| <= |t|
    decreases if start <= |t| then |t| - start else 0
  {
    if start + |literal| > |t| then None
    else if t[start..start + |literal|] == literal then Some((start, start + |literal|))
    else if start == |t| then None
    else FindLiteral(literal, t, start + 1)
  }

  function LiteralFinder(literal: string): Finder {
    (t: string, start: nat) => FindLiteral(literal, t, start)
  }

  lemma LiteralFinderFinds(literal: string)
    requires literal != []
    ensures IsFinder(LiteralFinder(literal))
  {
    forall t: string, start: nat | start <= |t| ensures FindsAt(LiteralFinder(literal), t, start) {
      assert LiteralFinder(literal)(t, start) == FindLiteral(literal, t, start);
    }
  }

  lemma RewriteFirst(t: string, start: nat, spans: seq<(nat, nat)>, ph: string -> string)
    requires spans != [] && Placed(t, start, spans)
    ensures Rewrite(t, start, spans, ph)
         == t[start..spans[0].0] + ph(t[spans[0].0..spans[0].1]) + Rewrite(t, spans[0].1, spans[1..], ph)
  {
  }

  lemma Concat3(c: char, a: string, b: string, r: string)
    ensures [c] + a + b + r == [c] + (a + b + r)
  {
  }

  lemma RewriteSkip(t: string, start: nat, spans: seq<(nat, nat)>, ph: string -> string)
    requires start < |t| && Placed(t, start + 1, spans)
    ensures Placed(t, start, spans) && Rewrite(t, start, spans, ph) == [t[start]] + Rewrite(t, start + 1, spans, ph)
  {
    if spans == [] {
      assert t[start..] == [t[start]] + t[start + 1..];
    } else {
      var (i, j) := spans[0];
      RewriteFirst(t, start, spans, ph);
      RewriteFirst(t, start + 1, spans, ph);
      assert t[start..i] == [t[start]] + t[start + 1..i];
      Concat3(t[start], t[start + 1..i], ph(t[i..j]), Rewrite(t, j, spans[1..], ph));
    }
  }

  lemma LiteralHit(t: string, start: nat, literal: string)
    requires literal != [] && start + |literal| <= |t| && t[start..start + |literal|] == literal
    ensures LiteralFinder(literal)(t, start) == Some((start, start + |literal|))
  {
    assert LiteralFinder(literal)(t, start) == FindLiteral(literal, t, start);
  }

  lemma ReplaceHit(u: string, key: string, value: string)
    requires key != [] && |u| >= |key| && u[..|key|] == key
    ensures Replace(u, key, value) == value + Replace(u[|key|..], key, value)
  {
  }

  lemma ReplaceMiss(u: string, key: string, value: string)
    requires key != [] && |u| >= |key| && u[..|key|] != key
    ensures Replace(u, key, value) == [u[0]] + Replace(u[1..], key, value)
  {
  }

  /** Where the literal does not start, the search goes on at the next position. */
  lemma LiteralMiss(t: string, start: nat, literal: string)
    requires literal != [] && start + |literal| <= |t| && t[start..start + |literal|] != literal
    requires IsFinder(LiteralFinder(literal))
    ensures Spans(LiteralFinder(literal), t, start) == Spans(LiteralFinder(literal), t, start + 1)
  {
    var find := LiteralFinder(literal);
    assert find(t, start) == FindLiteral(literal, t, start) == FindLiteral(literal, t, start + 1) == find(t, start + 1);
  }

  lemma SpansFirst(find: Finder, t: string, start: nat)
    requires IsFinder(find) && start <= |t| && find(t, start).Some?
    ensures FindsAt(find, t, start)
    ensures var m := find(t, start).value; Spans(find, t, start) == [m] + Spans(find, t, m.1)
  {
    assert FindsAt(find, t, start);
  }

  lemma ReplaceFound(t: string, start: nat, literal: string, rest: seq<(nat, nat)>, ph: string -> string)
    requires literal != [] && start + |literal| <= |t| && t[start..start + |literal|] == literal
    requires Placed(t, start + |literal|, rest)
    requires Rewrite(t, start + |literal|, rest, ph) == Replace(t[start + |literal|..], literal, ph(literal))
    ensures Placed(t, start, [(start, start + |literal|)] + rest)
    ensures Rewrite(t, start, [(start, start + |literal|)] + rest, ph) == Replace(t[start..], literal, ph(literal))
  {
    var u, spans := t[start..], [(start, start + |literal|)] + rest;
    assert spans[1..] == rest;
    RewriteFirst(t, start, spans, ph);
    assert t[start..start] + ph(literal) == ph(literal);
    assert u[..|literal|] == literal && u[|literal|..] == t[start + |literal|..];
    ReplaceHit(u, literal, ph(literal));
  }

  lemma ReplaceSkipped(t: string, start: nat, literal: string, spans: seq<(nat, nat)>, ph: string -> string)
    requires literal != [] && start + |literal| <= |t| && t[start..start + |literal|] != literal
    requires Placed(t, start + 1, spans)
    requires Rewrite(t, start + 1, spans, ph) == Replace(t[start + 1..], literal, ph(literal))
    ensures Placed(t, start, spans) && Rewrite(t, start, spans, ph) == Replace(t[start..], literal, ph(literal))
  {
    var u := t[start..];
    RewriteSkip(t, start, spans, ph);
    assert u[..|literal|] == t[start..start + |literal|] && u[1..] == t[start + 1..];
    ReplaceMiss(u, literal, ph(literal));
  }

  ghost predicate Replaces(t: string, start: nat, literal: string, ph: string -> string)
    requires literal != [] && start <= |t| && IsFinder(LiteralFinder(literal))
  {
    var spans := Spans(LiteralFinder(literal), t, start);
    Placed(t, start, spans) && Rewrite(t, start, spans, ph) == Replace(t[start..], literal, ph(literal))
  }

  lemma {:induction false} ReplacesFrom(t: string, start: nat, literal: string, ph: string -> string)
    requires literal != [] && start <= |t| && IsFinder(LiteralFinder(literal))
    ensures Replaces(t, start, literal, ph)
    decreases |t| - start
  {
    if start + |literal| > |t| {
      NoRoomForLiteral(t, start, literal, ph);
    } else if t[start..start + |literal|] == literal {
      ReplacesFrom(t, start + |literal|, literal, ph);
      FoundHere(t, start, literal, ph);
    } else {
      ReplacesFrom(t, start + 1, literal, ph);
      FoundLater(t, start, literal, ph);
    }
  }

  /** Replacing a literal is rewriting its matches. */
  lemma ReplaceIsRewrite(t: string, start: nat, literal: string, ph: string -> string)
    requires literal != [] && start <= |t| && IsFinder(LiteralFinder(literal))
    ensures Placed(t, start, Spans(LiteralFinder(literal), t, start))
    ensures Rewrite(t, start, Spans(LiteralFinder(literal), t, start), ph) == Replace(t[start..], literal, ph(literal))
  {
    ReplacesFrom(t, start, literal, ph);
  }

  lemma FoundHere(t: string, start: nat, literal: string, ph: string -> string)
    requires literal != [] && start + |literal| <= |t| && t[start..start + |literal|] == literal
    requires IsFinder(LiteralFinder(literal)) && Replaces(t, start + |literal|, literal, ph)
    ensures Replaces(t, start, literal, ph)
  {
    SpansFound(t, start, literal);
    ReplaceFound(t, start, literal, Spans(LiteralFinder(literal), t, start + |literal|), ph);
  }

  lemma FoundLater(t: string, start: nat, literal: string, ph: string -> string)
    requires literal != [] && start + |literal| <= |t| && t[start..start + |literal|] != literal
    requires IsFinder(LiteralFinder(literal)) && Replaces(t, start + 1, literal, ph)
    ensures Replaces(t, start, literal, ph)
  {
    LiteralMiss(t, start, literal);
    ReplaceSkipped(t, start, literal, Spans(LiteralFinder(literal), t, start + 1), ph);
  }

  lemma NoRoomForLiteral(t: string, start: nat, literal: string, ph: string -> string)
    requires literal != [] && start <= |t| < start + |literal| && IsFinder(LiteralFinder(literal))
    ensures Replaces(t, start, literal, ph)
  {
    assert LiteralFinder(literal)(t, start) == FindLiteral(literal, t, start);
  }

  lemma SpansFound(t: string, start: nat, literal: string)
    requires literal != [] && start + |literal| <= |t| && t[start..start + |literal|] == literal
    requires IsFinder(LiteralFinder(literal))
    ensures Spans(LiteralFinder(literal), t, start)
         == [(start, start + |literal|)] + Spans(LiteralFinder(literal), t, start + |literal|)
  {
    LiteralHit(t, start, literal);
    SpansFirst(LiteralFinder(literal), t, start);
  }

  // ---------------------------------------------------------------- placeholders

  predicate HexChar(c: char) { '0' <= c <= '9' || 'a' <= c <= 'f' }

  predicate TagChar(c: char) { 'A' <= c <= 'Z' || c == '_' }

  predicate TagText(tag: string) { forall i :: 0 <= i < |tag| ==> TagChar(tag[i]) }

  /** The salted hash, cut to eight bytes and written in hex. Nothing else is assumed about it. */
  ghost predicate IsDigest(digest: string -> string) {
    forall x: string :: IsHex16(digest(x))
  }

  predicate IsHex16(h: string) { |h| == 16 && forall i :: 0 <= i < |h| ==> HexChar(h[i]) }

  function Placeholder(digest: string -> string, tag: string, original: string): string {
    "<" + tag + "_" + digest(tag + original) + ">"
  }

  predicate BracketFree(s: string) { forall i :: 0 <= i < |s| ==> s[i] != '<' && s[i] != '>' }

  /** The shape of a placeholder: bracketed, of tag and hex characters only. */
  predicate IsPlaceholder(p: string) {
    && |p| >= 2 && p[0] == '<' && p[|p| - 1] == '>'
    && forall i :: 0 < i < |p| - 1 ==> TagChar(p[i]) || HexChar(p[i])
  }

  lemma PlaceholderShape(digest: string -> string, tag: string, original: string)
    requires IsDigest(digest) && TagText(tag)
    ensures IsPlaceholder(Placeholder(digest, tag, original))
    ensures |Placeholder(digest, tag, original)| == |tag| + 19
            && Placeholder(digest, tag, original)[..|tag| + 2] == "<" + tag + "_"
            && Placeholder(digest, tag, original)[|tag| + 2..|tag| + 18] == digest(tag + original)
  {
    var h := digest(tag + original);
    assert IsHex16(h);
    var p := Placeholder(digest, tag, original);
    assert p == ("<" + tag + "_") + (h + ">");
    forall i | 0 < i < |p| - 1 ensures TagChar(p[i]) || HexChar(p[i]) {
      if i < 1 + |tag| { assert p[i] == tag[i - 1]; }
      else if i == 1 + |tag| { assert p[i] == '_'; }
      else { assert p[i] == h[i - 2 - |tag|]; }
    }
  }

  // ---------------------------------------------------------------- the table

  datatype Kind = PrivateKey | ApiKey | Email | Phone | EthAddress | Url | Custom

  datatype RedactionEntry = RedactionEntry(placeholder: string, original: string, kind: Kind)

  /** The reverse map that rehydration reads, and the entries that are saved. */
  datatype Book = Book(rev: map<string, string>, entries: seq<RedactionEntry>)

  /** The reverse map a saved state is loaded into; a later entry wins. */
  function MapOf(entries: seq<RedactionEntry>): map<string, string> {
    if entries == [] then map[]
    else MapOf(entries[..|entries| - 1])[entries[|entries| - 1].placeholder := entries[|entries| - 1].original]
  }

  function Learn(b: Book, placeholder: string, original: string, kind: Kind): Book {
    if placeholder in b.rev then b
    else Book(b.rev[placeholder := original], b.entries + [RedactionEntry(placeholder, original, kind)])
  }

  /** Learn every match in order. */
  function LearnAll(b: Book, t: string, start: nat, spans: seq<(nat, nat)>, ph: string -> string, kind: Kind): Book
    requires Placed(t, start, spans)
    decreases |spans|
  {
    if spans == [] then b
    else
      var m := t[spans[0].0..spans[0].1];
      LearnAll(Learn(b, ph(m), m, kind), t, spans[0].1, spans[1..], ph, kind)
  }

  predicate DistinctPlaceholders(entries: seq<RedactionEntry>) {
    forall i, j :: 0 <= i < j < |entries| ==> entries[i].placeholder != entries[j].placeholder
  }

  /** The reverse map is the one its entries would be loaded into. */
  predicate Loaded(b: Book) { b.rev == MapOf(b.entries) }

  /** `c` knows everything `b` knows. */
  predicate Extends(b: Book, c: Book) {
    b.entries <= c.entries && forall p :: p in b.rev ==> p in c.rev && c.rev[p] == b.rev[p]
  }

  lemma {:induction false} MapOfKeys(entries: seq<RedactionEntry>, i: nat)
    requires i < |entries|
    ensures entries[i].placeholder in MapOf(entries)
  {
    if i < |entries| - 1 { MapOfKeys(entries[..|entries| - 1], i); }
  }

  lemma LearnKeeps(b: Book, placeholder: string, original: string, kind: Kind)
    ensures Extends(b, Learn(b, placeholder, original, kind))
    ensures Loaded(b) ==> Loaded(Learn(b, placeholder, original, kind))
    ensures Loaded(b) && DistinctPlaceholders(b.entries) ==>
            DistinctPlaceholders(Learn(b, placeholder, original, kind).entries)
    ensures placeholder in Learn(b, placeholder, original, kind).rev
    ensures placeholder !in b.rev ==>
              var c := Learn(b, placeholder, original, kind);
              c.rev[placeholder] == original && c.entries == b.entries + [RedactionEntry(placeholder, original, kind)]
  {
    var c := Learn(b, placeholder, original, kind);
    if placeholder !in b.rev {
      assert c.entries[..|c.entries| - 1] == b.entries;
      if Loaded(b) {
        forall i | 0 <= i < |b.entries| ensures b.entries[i].placeholder != placeholder { MapOfKeys(b.entries, i); }
      }
    }
  }

  /** Mappings are added, never changed; the reverse map and the saved entries stay the same table;
      placeholders stay distinct. */
  lemma {:induction false} LearnAllKeeps(b: Book, t: string, start: nat, spans: seq<(nat, nat)>, ph: string -> string,
                                         kind: Kind)
    requires Placed(t, start, spans)
    ensures var c := LearnAll(b, t, start, spans, ph, kind);
            && Extends(b, c)
            && (Loaded(b) ==> Loaded(c))
            && (Loaded(b) && DistinctPlaceholders(b.entries) ==> DistinctPlaceholders(c.entries))
    decreases |spans|
  {
    if spans != [] {
      var m := t[spans[0].0..spans[0].1];
      LearnKeeps(b, ph(m), m, kind);
      LearnAllKeeps(Learn(b, ph(m), m, kind), t, spans[0].1, spans[1..], ph, kind);
    }
  }

  // ---------------------------------------------------------------- passes

  datatype Pass = Pass(find: Finder, kind: Kind, tag: string)

  ghost predicate GoodPass(p: Pass) { IsFinder(p.find) && TagText(p.tag) }

  function Ph(digest: string -> string, tag: string): string -> string {
    (m: string) => Placeholder(digest, tag, m)
  }

  ghost function PassText(digest: string -> string, t: string, p: Pass): string
    requires IsFinder(p.find)
  {
    SpansPlaced(p.find, t, 0);
    Rewrite(t, 0, Spans(p.find, t, 0), Ph(digest, p.tag))
  }

  ghost function PassBook(digest: string -> string, b: Book, t: string, p: Pass): Book
    requires IsFinder(p.find)
  {
    SpansPlaced(p.find, t, 0);
    LearnAll(b, t, 0, Spans(p.find, t, 0), Ph(digest, p.tag), p.kind)
  }

  ghost predicate GoodPasses(ps: seq<Pass>) { forall i :: 0 <= i < |ps| ==> GoodPass(ps[i]) }

  /** All passes, one after the other. */
  ghost function Redacted(digest: string -> string, b: Book, t: string, ps: seq<Pass>): (string, Book)
    requires GoodPasses(ps)
    decreases |ps|
  {
    if ps == [] then (t, b)
    else
      assert GoodPass(ps[0]);
      Redacted(digest, PassBook(digest, b, t, ps[0]), PassText(digest, t, ps[0]), ps[1..])
  }

  lemma RedactedFirst(digest: string -> string, b: Book, t: string, ps: seq<Pass>)
    requires GoodPasses(ps) && ps != []
    ensures GoodPass(ps[0]) && GoodPasses(ps[1..])
    ensures Redacted(digest, b, t, ps)
         == Redacted(digest, PassBook(digest, b, t, ps[0]), PassText(digest, t, ps[0]), ps[1..])
  {
    assert GoodPass(ps[0]);
  }

  lemma ExtendsTrans(a: Book, b: Book, c: Book)
    requires Extends(a, b) && Extends(b, c)
    ensures Extends(a, c)
  {
  }

  lemma {:induction false} RedactedKeeps(digest: string -> string, b: Book, t: string, ps: seq<Pass>)
    requires GoodPasses(ps)
    ensures var c := Redacted(digest, b, t, ps).1;
            && Extends(b, c)
            && (Loaded(b) ==> Loaded(c))
            && (Loaded(b) && DistinctPlaceholders(b.entries) ==> DistinctPlaceholders(c.entries))
    decreases |ps|
  {
    if ps != [] {
      RedactedFirst(digest, b, t, ps);
      SpansPlaced(ps[0].find, t, 0);
      var b1 := PassBook(digest, b, t, ps[0]);
      LearnAllKeeps(b, t, 0, Spans(ps[0].find, t, 0), Ph(digest, ps[0].tag), ps[0].kind);
      RedactedKeeps(digest, b1, PassText(digest, t, ps[0]), ps[1..]);
      ExtendsTrans(b, b1, Redacted(digest, b, t, ps).1);
    }
  }

  // ---------------------------------------------------------------- occurrences

  predicate At(t: string, i: nat, s: string) { i + |s| <= |t| && t[i..i + |s|] == s }

  predicate Occurs(s: string, t: string) { exists i :: 0 <= i <= |t| && At(t, i, s) }

  // ---------------------------------------------------------------- rehydration

  /** `str::replace` with an empty pattern puts the value around every character. */
  function Interleave(t: string, value: string): string {
    if t == [] then value else value + [t[0]] + Interleave(t[1..], value)
  }

  function ReplaceAll(t: string, key: string, value: string): string {
    if key == [] then Interleave(t, value) else Replace(t, key, value)
  }

  /** Replace the given keys, one after the other. */
  function Sequential(t: string, keys: seq<string>, rev: map<string, string>): string
    requires forall k :: k in keys ==> k in rev
    decreases |keys|
  {
    if keys == [] then t else Sequential(ReplaceAll(t, keys[0], rev[keys[0]]), keys[1..], rev)
  }

  /** All keys, each once, longest first; ties in any order. */
  ghost predicate KeyOrder(keys: seq<string>, rev: map<string, string>) {
    && |keys| == |rev| && (forall k :: k in keys <==> k in rev)
    && (forall i, j :: 0 <= i < j < |keys| ==> keys[i] != keys[j] && ByteLen(keys[i]) >= ByteLen(keys[j]))
  }

  lemma LongestExists(rest: set<string>) returns (longest: string)
    requires rest != {}
    ensures longest in rest && forall m :: m in rest ==> ByteLen(m) <= ByteLen(longest)
    decreases |rest|
  {
    longest :| longest in rest;
    if m :| m in rest && ByteLen(m) > ByteLen(longest) {
      var other := LongestExists(rest - {longest});
      longest := if ByteLen(other) > ByteLen(longest) then other else longest;
    }
  }

  // ---------------------------------------------------------------- the loaded map

  /** A placeholder stands for what its last entry says. */
  lemma {:induction false} LastEntryWins(entries: seq<RedactionEntry>, i: nat)
    requires i < |entries| && forall j :: i < j < |entries| ==> entries[j].placeholder != entries[i].placeholder
    ensures entries[i].placeholder in MapOf(entries) && MapOf(entries)[entries[i].placeholder] == entries[i].original
  {
    if i < |entries| - 1 { LastEntryWins(entries[..|entries| - 1], i); }
  }

  lemma {:induction false} OnlyEntriesAreMapped(entries: seq<RedactionEntry>, p: string)
    requires p in MapOf(entries)
    ensures exists i :: 0 <= i < |entries| && entries[i].placeholder == p
  {
    var last := |entries| - 1;
    if entries[last].placeholder != p {
      OnlyEntriesAreMapped(entries[..last], p);
      var i :| 0 <= i < last && entries[..last][i].placeholder == p;
      assert entries[i].placeholder == p;
    }
  }
}
