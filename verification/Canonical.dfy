/** Key sorting at every depth: the canonical form of a JSON value. */
module Canonical {
  import opened Json
  import opened JsonReader

  /** The order of `str`: by code point, which is also the order of the UTF-8 bytes. */
  predicate Less(a: string, b: string) {
    b != [] && (a == [] || a[0] < b[0] || (a[0] == b[0] && Less(a[1..], b[1..])))
  }

  lemma {:induction false} LessTotal(a: string, b: string)
    ensures !(Less(a, b) && Less(b, a))
    ensures Less(a, b) || a == b || Less(b, a)
    ensures !Less(a, a)
  {
    if a != [] { LessTotal(a[1..], a[1..]); }
    if a != [] && b != [] && a[0] == b[0] {
      LessTotal(a[1..], b[1..]);
      assert a == [a[0]] + a[1..] && b == [b[0]] + b[1..];
    }
  }

  lemma {:induction false} LessTransitive(a: string, b: string, c: string)
    requires Less(a, b) && Less(b, c)
    ensures Less(a, c)
  {
    if a != [] && a[0] == b[0] && b[0] == c[0] { LessTransitive(a[1..], b[1..], c[1..]); }
  }

  // ---------------------------------------------------------------- sorting members

  function Insert(e: Entry, es: seq<Entry>): seq<Entry> {
    if es == [] then [e]
    else if Less(es[0].key, e.key) then [es[0]] + Insert(e, es[1..])
    else [e] + es
  }

  function SortEntries(es: seq<Entry>): seq<Entry> {
    if es == [] then [] else Insert(es[0], SortEntries(es[1..]))
  }

  ghost predicate StrictlySorted(es: seq<Entry>) {
    forall i, j :: 0 <= i < j < |es| ==> Less(es[i].key, es[j].key)
  }

  /** Sorting loses no entry and invents none. */
  lemma {:induction false} InsertContents(e: Entry, es: seq<Entry>)
    ensures multiset(Insert(e, es)) == multiset(es) + multiset{e}
  {
    if es != [] {
      assert es == [es[0]] + es[1..];
      if Less(es[0].key, e.key) { InsertContents(e, es[1..]); }
    }
  }

  lemma {:induction false} SortContents(es: seq<Entry>)
    ensures multiset(SortEntries(es)) == multiset(es)
  {
    if es != [] {
      assert es == [es[0]] + es[1..];
      SortContents(es[1..]);
      InsertContents(es[0], SortEntries(es[1..]));
    }
  }

  lemma SameElements(es: seq<Entry>, fs: seq<Entry>, e: Entry)
    requires multiset(es) == multiset(fs)
    ensures e in es <==> e in fs
  {
    assert e in es <==> e in multiset(es);
    assert e in fs <==> e in multiset(fs);
  }

  lemma {:induction false} InsertSorted(e: Entry, es: seq<Entry>)
    requires StrictlySorted(es) && forall f :: f in es ==> f.key != e.key
    ensures StrictlySorted(Insert(e, es))
  {
    if es != [] {
      LessTotal(es[0].key, e.key);
      if Less(es[0].key, e.key) {
        InsertSorted(e, es[1..]);
        var r := Insert(e, es[1..]);
        InsertContents(e, es[1..]);
        forall i | 0 <= i < |r| ensures Less(es[0].key, r[i].key) {
          assert r[i] in multiset(r);
          if r[i] != e { assert r[i] in es[1..]; }
        }
      } else {
        forall i | 0 <= i < |es| ensures Less(e.key, es[i].key) {
          if i > 0 { LessTransitive(e.key, es[0].key, es[i].key); }
        }
      }
    }
  }

  lemma {:induction false} SortSorted(es: seq<Entry>)
    requires DistinctKeys(es)
    ensures StrictlySorted(SortEntries(es))
  {
    if es != [] {
      SortSorted(es[1..]);
      SortContents(es[1..]);
      forall f | f in SortEntries(es[1..]) ensures f.key != es[0].key {
        SameElements(es[1..], SortEntries(es[1..]), f);
        var i :| 0 <= i < |es[1..]| && es[1..][i] == f;
        assert es[i + 1] == f;
      }
      InsertSorted(es[0], SortEntries(es[1..]));
    }
  }

  /** A strictly sorted list is determined by its elements. */
  lemma {:induction false} SortedUnique(es: seq<Entry>, fs: seq<Entry>)
    requires StrictlySorted(es) && StrictlySorted(fs) && forall e :: e in es <==> e in fs
    ensures es == fs
  {
    if es == [] {
      assert forall i :: 0 <= i < |fs| ==> fs[i] in fs;
    } else {
      assert es[0] in fs;
      HeadIsLeast(es, fs);
      forall e ensures e in es[1..] <==> e in fs[1..] {
        TailMembers(es, e);
        TailMembers(fs, e);
      }
      SortedUnique(es[1..], fs[1..]);
      assert es == [es[0]] + es[1..] && fs == [fs[0]] + fs[1..];
    }
  }

  lemma HeadIsLeast(es: seq<Entry>, fs: seq<Entry>)
    requires StrictlySorted(es) && StrictlySorted(fs) && es != [] && fs != []
    requires es[0] in fs && fs[0] in es
    ensures es[0] == fs[0]
  {
    var i :| 0 <= i < |fs| && fs[i] == es[0];
    var j :| 0 <= j < |es| && es[j] == fs[0];
    LessTotal(es[0].key, fs[0].key);
  }

  lemma TailMembers(es: seq<Entry>, e: Entry)
    requires StrictlySorted(es) && es != []
    ensures e in es[1..] <==> e in es && e != es[0]
  {
    LessTotal(e.key, e.key);
    if e in es && e != es[0] {
      var i :| 0 <= i < |es| && es[i] == e;
      assert es[1..][i - 1] == e;
    }
  }

  // ---------------------------------------------------------------- canonical form

  function Canon(v: Json): Json
    decreases v, 1
  {
    match v
    case Arr(items) => Arr(CanonItems(items))
    case Obj(entries) => Obj(SortEntries(CanonEntries(entries)))
    case _ => v
  }

  function CanonItems(items: seq<Json>): (r: seq<Json>)
    ensures |r| == |items|
    decreases items, 0
  {
    if items == [] then [] else [Canon(items[0])] + CanonItems(items[1..])
  }

  function CanonEntries(entries: seq<Entry>): (r: seq<Entry>)
    ensures |r| == |entries|
    decreases entries, 0
  {
    if entries == [] then [] else [Entry(entries[0].key, Canon(entries[0].value))] + CanonEntries(entries[1..])
  }

  lemma {:induction false} CanonEntryAt(entries: seq<Entry>, i: nat)
    requires i < |entries|
    ensures CanonEntries(entries)[i] == Entry(entries[i].key, Canon(entries[i].value))
  {
    if i > 0 { CanonEntryAt(entries[1..], i - 1); }
  }

  lemma {:induction false} CanonItemAt(items: seq<Json>, i: nat)
    requires i < |items|
    ensures CanonItems(items)[i] == Canon(items[i])
  {
    if i > 0 { CanonItemAt(items[1..], i - 1); }
  }

  lemma CanonEntriesDistinct(entries: seq<Entry>)
    requires DistinctKeys(entries)
    ensures DistinctKeys(CanonEntries(entries))
  {
    var c := CanonEntries(entries);
    forall i, j | 0 <= i < j < |c| ensures c[i].key != c[j].key {
      CanonEntryAt(entries, i);
      CanonEntryAt(entries, j);
    }
  }

  /** Keys do not change, so it does not matter whether children are canonicalised before sorting
      or, as the source does, after. */
  lemma {:induction false} CanonInsert(e: Entry, es: seq<Entry>)
    ensures CanonEntries(Insert(e, es)) == Insert(Entry(e.key, Canon(e.value)), CanonEntries(es))
  {
    if es != [] && Less(es[0].key, e.key) {
      CanonInsert(e, es[1..]);
      assert Insert(e, es)[1..] == Insert(e, es[1..]);
      assert CanonEntries(es)[1..] == CanonEntries(es[1..]);
    } else {
      assert Insert(e, es)[1..] == es;
    }
  }

  lemma {:induction false} CanonSort(es: seq<Entry>)
    ensures CanonEntries(SortEntries(es)) == SortEntries(CanonEntries(es))
  {
    if es != [] {
      CanonSort(es[1..]);
      CanonInsert(es[0], SortEntries(es[1..]));
      assert CanonEntries(es)[1..] == CanonEntries(es[1..]);
    }
  }

  /** `canonicalize_json`, as it runs: take the members out, sort them, canonicalise each child,
      put them back; arrays child by child. */
  method CanonicalizeJson(value: Json) returns (out: Json)
    ensures out == Canon(value)
    decreases value
  {
    match value {
      case Obj(members) =>
        var entries := SortEntries(members);
        SortContents(members);
        var done: seq<Entry> := [];
        while |done| < |entries|
          invariant |done| <= |entries|
          invariant done == CanonEntries(entries)[..|done|]
        {
          var i := |done|;
          SameElements(members, entries, entries[i]);
          ghost var j :| 0 <= j < |members| && members[j] == entries[i];
          var child := CanonicalizeJson(entries[i].value);
          CanonEntryAt(entries, i);
          done := done + [Entry(entries[i].key, child)];
        }
        CanonSort(members);
        out := Obj(done);
      case Arr(values) =>
        var done: seq<Json> := [];
        while |done| < |values|
          invariant |done| <= |values|
          invariant done == CanonItems(values)[..|done|]
        {
          var i := |done|;
          var child := CanonicalizeJson(values[i]);
          CanonItemAt(values, i);
          done := done + [child];
        }
        out := Arr(done);
      case _ => out := value;
    }
  }

  // ---------------------------------------------------------------- what canonicalisation keeps

  /** Looking a member up by key: the members are a map. */
  lemma {:induction false} MemberAt(entries: seq<Entry>, i: nat)
    requires DistinctKeys(entries) && i < |entries|
    ensures entries[i].key in Members(entries)
    ensures Members(entries)[entries[i].key] == Meaning(entries[i].value)
  {
    if i > 0 {
      MemberAt(entries[1..], i - 1);
      assert entries[1..][i - 1] == entries[i];
    }
  }

  lemma {:induction false} MemberOf(entries: seq<Entry>, key: string)
    requires key in Members(entries)
    ensures exists i :: 0 <= i < |entries| && entries[i].key == key
  {
    if entries[0].key != key {
      MemberOf(entries[1..], key);
      var i :| 0 <= i < |entries[1..]| && entries[1..][i].key == key;
      assert entries[i + 1].key == key;
    }
  }

  ghost predicate Alike(e: Entry, f: Entry) {
    e.key == f.key && Meaning(e.value) == Meaning(f.value)
  }

  ghost predicate Covered(es: seq<Entry>, fs: seq<Entry>) {
    forall i {:trigger HasAlike(es[i], fs)} :: 0 <= i < |es| ==> HasAlike(es[i], fs)
  }

  ghost predicate HasAlike(e: Entry, fs: seq<Entry>) { exists j :: 0 <= j < |fs| && Alike(e, fs[j]) }

  lemma CoveredMember(es: seq<Entry>, fs: seq<Entry>, k: string)
    requires DistinctKeys(es) && DistinctKeys(fs) && Covered(es, fs) && k in Members(es)
    ensures k in Members(fs) && Members(es)[k] == Members(fs)[k]
  {
    MemberOf(es, k);
    var i :| 0 <= i < |es| && es[i].key == k;
    assert HasAlike(es[i], fs);
    var j :| 0 <= j < |fs| && Alike(es[i], fs[j]);
    MemberAt(es, i);
    MemberAt(fs, j);
  }

  /** Two member lists mean the same when they have the same keys with the same meanings. */
  lemma MembersEqual(es: seq<Entry>, fs: seq<Entry>)
    requires DistinctKeys(es) && DistinctKeys(fs) && Covered(es, fs) && Covered(fs, es)
    ensures Members(es) == Members(fs)
  {
    var m, n := Members(es), Members(fs);
    forall k | k in m ensures k in n && m[k] == n[k] { CoveredMember(es, fs, k); }
    forall k | k in n ensures k in m { CoveredMember(fs, es, k); }
  }

  lemma DistinctSorted(es: seq<Entry>)
    requires StrictlySorted(es)
    ensures DistinctKeys(es)
  {
    forall i, j | 0 <= i < j < |es| ensures es[i].key != es[j].key { LessTotal(es[i].key, es[j].key); }
  }

  lemma {:induction false} ValidEntryAt(es: seq<Entry>, i: nat)
    requires ValidEntries(es) && i < |es|
    ensures Valid(es[i].value)
  {
    if i > 0 { ValidEntryAt(es[1..], i - 1); }
  }

  /** Canonicalisation changes nothing that a JSON text means. */
  lemma {:induction false} CanonKeepsMeaning(v: Json)
    requires Valid(v)
    ensures Meaning(Canon(v)) == Meaning(v)
    decreases v, 1
  {
    match v {
      case Arr(items) => CanonKeepsMeanings(items);
      case Obj(entries) => CanonKeepsMembers(entries);
      case _ =>
    }
  }

  lemma {:induction false} CanonKeepsMeanings(items: seq<Json>)
    requires ValidItems(items)
    ensures Meanings(CanonItems(items)) == Meanings(items)
    decreases items, 0
  {
    if items != [] {
      CanonKeepsMeaning(items[0]);
      CanonKeepsMeanings(items[1..]);
      assert CanonItems(items)[1..] == CanonItems(items[1..]);
    }
  }

  lemma {:induction false} CanonKeepsMembers(entries: seq<Entry>)
    requires ValidEntries(entries) && DistinctKeys(entries)
    ensures Members(SortEntries(CanonEntries(entries))) == Members(entries)
    decreases entries, 0
  {
    var c := CanonEntries(entries);
    var s := SortEntries(c);
    CanonEntriesDistinct(entries);
    SortSorted(c);
    DistinctSorted(s);
    SortContents(c);
    forall i | 0 <= i < |s| ensures exists j :: 0 <= j < |entries| && Alike(s[i], entries[j]) {
      SameElements(c, s, s[i]);
      var j :| 0 <= j < |c| && c[j] == s[i];
      CanonEntryAt(entries, j);
      ValidEntryAt(entries, j);
      CanonKeepsMeaning(entries[j].value);
      assert Alike(s[i], entries[j]);
    }
    forall j | 0 <= j < |entries| ensures exists i :: 0 <= i < |s| && Alike(s[i], entries[j]) {
      SameElements(c, s, c[j]);
      var i :| 0 <= i < |s| && s[i] == c[j];
      CanonEntryAt(entries, j);
      ValidEntryAt(entries, j);
      CanonKeepsMeaning(entries[j].value);
      assert Alike(s[i], entries[j]);
    }
    MembersEqual(s, entries);
  }

  /** Values that mean the same have the same canonical form, whatever order their members were in. */
  lemma {:induction false} CanonDetermined(v: Json, w: Json)
    requires Valid(v) && Valid(w) && Meaning(v) == Meaning(w)
    ensures Canon(v) == Canon(w)
    decreases v, 1
  {
    match v {
      case Arr(items) => ItemsDetermined(items, w.items);
      case Obj(entries) =>
        var c, d := CanonEntries(entries), CanonEntries(w.entries);
        MembersDetermined(entries, w.entries);
        CanonEntriesDistinct(entries);
        CanonEntriesDistinct(w.entries);
        SortSorted(c);
        SortSorted(d);
        SortContents(c);
        SortContents(d);
        forall e ensures e in SortEntries(c) <==> e in SortEntries(d) {
          SameElements(c, SortEntries(c), e);
          SameElements(d, SortEntries(d), e);
        }
        SortedUnique(SortEntries(c), SortEntries(d));
      case _ =>
    }
  }

  lemma {:induction false} ItemsDetermined(v: seq<Json>, w: seq<Json>)
    requires ValidItems(v) && ValidItems(w) && Meanings(v) == Meanings(w)
    ensures CanonItems(v) == CanonItems(w)
    decreases v, 0
  {
    assert |v| == |Meanings(v)| == |w|;
    if v != [] {
      assert Meaning(v[0]) == Meanings(v)[0] == Meaning(w[0]);
      assert Meanings(v[1..]) == Meanings(v)[1..] == Meanings(w[1..]);
      CanonDetermined(v[0], w[0]);
      ItemsDetermined(v[1..], w[1..]);
    }
  }

  lemma {:induction false} MembersDetermined(v: seq<Entry>, w: seq<Entry>)
    requires ValidEntries(v) && ValidEntries(w) && DistinctKeys(v) && DistinctKeys(w) && Members(v) == Members(w)
    ensures forall e :: e in CanonEntries(v) <==> e in CanonEntries(w)
    decreases v, 0
  {
    var c, d := CanonEntries(v), CanonEntries(w);
    forall i | 0 <= i < |c| ensures c[i] in d {
      MemberAt(v, i);
      MemberOf(w, v[i].key);
      var j :| 0 <= j < |w| && w[j].key == v[i].key;
      PairDetermined(v, w, i, j);
    }
    forall j | 0 <= j < |d| ensures d[j] in c {
      MemberAt(w, j);
      MemberOf(v, w[j].key);
      var i :| 0 <= i < |v| && v[i].key == w[j].key;
      PairDetermined(v, w, i, j);
    }
  }

  lemma {:induction false} PairDetermined(v: seq<Entry>, w: seq<Entry>, i: nat, j: nat)
    requires ValidEntries(v) && ValidEntries(w) && DistinctKeys(v) && DistinctKeys(w) && Members(v) == Members(w)
    requires i < |v| && j < |w| && v[i].key == w[j].key
    ensures CanonEntries(v)[i] == CanonEntries(w)[j]
    decreases v[i].value, 2
  {
    MemberAt(v, i);
    MemberAt(w, j);
    ValidEntryAt(v, i);
    ValidEntryAt(w, j);
    CanonEntryAt(v, i);
    CanonEntryAt(w, j);
    CanonDetermined(v[i].value, w[j].value);
  }

  lemma {:induction false} CanonValid(v: Json)
    requires Valid(v)
    ensures Valid(Canon(v))
    decreases v, 1
  {
    match v {
      case Arr(items) => CanonItemsValid(items);
      case Obj(entries) =>
        var c := CanonEntries(entries);
        CanonEntriesValid(entries);
        CanonEntriesDistinct(entries);
        SortSorted(c);
        DistinctSorted(SortEntries(c));
        SortContents(c);
        ValidFromElements(c, SortEntries(c));
      case _ =>
    }
  }

  lemma {:induction false} CanonItemsValid(items: seq<Json>)
    requires ValidItems(items)
    ensures ValidItems(CanonItems(items))
    decreases items, 0
  {
    if items != [] {
      CanonValid(items[0]);
      CanonItemsValid(items[1..]);
      assert CanonItems(items)[1..] == CanonItems(items[1..]);
    }
  }

  lemma {:induction false} CanonEntriesValid(entries: seq<Entry>)
    requires ValidEntries(entries)
    ensures ValidEntries(CanonEntries(entries))
    decreases entries, 0
  {
    if entries != [] {
      CanonValid(entries[0].value);
      CanonEntriesValid(entries[1..]);
      assert CanonEntries(entries)[1..] == CanonEntries(entries[1..]);
    }
  }

  lemma ValidFromElements(es: seq<Entry>, fs: seq<Entry>)
    requires ValidEntries(es) && multiset(es) == multiset(fs)
    ensures ValidEntries(fs)
  {
    forall i | 0 <= i < |fs| ensures Valid(fs[i].value) {
      SameElements(es, fs, fs[i]);
      var j :| 0 <= j < |es| && es[j] == fs[i];
      ValidEntryAt(es, j);
    }
    ValidEntriesFromAll(fs);
  }

  lemma {:induction false} ValidEntriesFromAll(fs: seq<Entry>)
    requires forall i :: 0 <= i < |fs| ==> Valid(fs[i].value)
    ensures ValidEntries(fs)
  {
    if fs != [] { ValidEntriesFromAll(fs[1..]); }
  }

  /** Canonicalise-then-print is a faithful encoding: two values give the same text exactly when they
      are equal as JSON values, object key order aside, at every depth. */
  lemma CanonicalTextIsFaithful(v: Json, w: Json)
    requires Valid(v) && Valid(w)
    ensures Print(Canon(v)) == Print(Canon(w)) <==> Meaning(v) == Meaning(w)
  {
    if Meaning(v) == Meaning(w) {
      CanonDetermined(v, w);
    }
    if Print(Canon(v)) == Print(Canon(w)) {
      CanonValid(v);
      CanonValid(w);
      PrintInjective(Canon(v), Canon(w));
      CanonKeepsMeaning(v);
      CanonKeepsMeaning(w);
    }
  }

  lemma CanonIdempotent(v: Json)
    requires Valid(v)
    ensures Canon(Canon(v)) == Canon(v)
  {
    CanonValid(v);
    CanonKeepsMeaning(v);
    CanonDetermined(Canon(v), v);
  }
}
