/** The last steps of building a remote prompt: drop and truncate until it fits the byte budget of
    its token class, then pad it. */
module Prompt {
  import opened Bytes
  import opened Chat

  predicate IsUser(m: ChatMessage) { m.role == "user" }

  predicate IsSystem(m: ChatMessage) { m.role == "system" }

  function MessageBytes(m: ChatMessage): nat { ByteLen(m.role) + ByteLen(m.content) }

  /** The client's measure of a prompt. */
  function PromptBytes(ms: seq<ChatMessage>): nat {
    if ms == [] then 0 else MessageBytes(ms[0]) + PromptBytes(ms[1..])
  }

  /** The last index that holds a user message. */
  function LastUser(ms: seq<ChatMessage>): (r: Option<nat>)
    ensures r.Some? ==> r.value < |ms| && IsUser(ms[r.value])
    ensures r.Some? ==> forall i :: r.value < i < |ms| ==> !IsUser(ms[i])
    ensures r.None? ==> forall i :: 0 <= i < |ms| ==> !IsUser(ms[i])
  {
    if ms == [] then None
    else if IsUser(ms[|ms| - 1]) then Some(|ms| - 1)
    else LastUser(ms[..|ms| - 1])
  }

  /** The message that is never dropped. */
  function Kept(ms: seq<ChatMessage>): nat {
    if LastUser(ms).Some? then LastUser(ms).value else SaturatingSub(|ms|, 1)
  }

  predicate Droppable(ms: seq<ChatMessage>, i: nat) {
    0 < i < |ms| && !IsSystem(ms[i]) && i != Kept(ms)
  }

  function FirstDroppable(ms: seq<ChatMessage>, start: nat): (r: Option<nat>)
    requires start <= |ms|
    ensures r.Some? ==> start <= r.value && Droppable(ms, r.value) && forall i :: start <= i < r.value ==>
            !Droppable(ms, i)
    ensures r.None? ==> forall i :: start <= i < |ms| ==> !Droppable(ms, i)
    decreases |ms| - start
  {
    if start == |ms| then None
    else if Droppable(ms, start) then Some(start)
    else FirstDroppable(ms, start + 1)
  }

  function Remove(ms: seq<ChatMessage>, i: nat): seq<ChatMessage>
    requires i < |ms|
  {
    ms[..i] + ms[i + 1..]
  }

  predicate CanDrop(ms: seq<ChatMessage>) {
    |ms| > 2 && FirstDroppable(ms, 0).Some?
  }

  function DropOldest(ms: seq<ChatMessage>): (r: seq<ChatMessage>)
    requires CanDrop(ms)
    ensures |r| == |ms| - 1
  {
    Remove(ms, FirstDroppable(ms, 0).value)
  }

  /** Cut `over + 32` characters off the content and mark the cut. */
  function Cut(content: string, over: nat): string {
    content[..SaturatingSub(|content|, over + 32)] + [ELLIPSIS]
  }

  function TruncateUser(ms: seq<ChatMessage>, max: nat): (r: seq<ChatMessage>)
    requires LastUser(ms).Some? && PromptBytes(ms) > max
    ensures |r| == |ms|
  {
    var i := LastUser(ms).value;
    ms[i := ms[i].(content := Cut(ms[i].content, PromptBytes(ms) - max))]
  }

  // ---------------------------------------------------------------- the loop, one turn at a time

  /** One turn of the loop; `None` when it stops. */
  function Turn(ms: seq<ChatMessage>, max: nat): Option<seq<ChatMessage>> {
    if PromptBytes(ms) <= max then None
    else if CanDrop(ms) then Some(DropOldest(ms))
    else if LastUser(ms).Some? then Some(TruncateUser(ms, max))
    else None
  }

  function Turns(ms: seq<ChatMessage>, max: nat, n: nat): seq<ChatMessage>
    decreases n
  {
    if n == 0 || Turn(ms, max).None? then ms else Turns(Turn(ms, max).value, max, n - 1)
  }

  /** The loop stops after some number of turns. */
  ghost predicate Stops(ms: seq<ChatMessage>, max: nat) {
    exists n: nat :: Turn(Turns(ms, max, n), max).None?
  }

  // ---------------------------------------------------------------- what it computes

  /** Drop oldest messages while over budget. */
  function Dropped(ms: seq<ChatMessage>, max: nat): (r: seq<ChatMessage>)
    ensures PromptBytes(r) <= max || !CanDrop(r)
    decreases |ms|
  {
    if PromptBytes(ms) <= max || !CanDrop(ms) then ms else Dropped(DropOldest(ms), max)
  }

  function Enforced(ms: seq<ChatMessage>, max: nat): seq<ChatMessage> {
    var d := Dropped(ms, max);
    if PromptBytes(d) <= max || LastUser(d).None? then d else TruncateUser(d, max)
  }

  /** Everything but the last user message's content. */
  function Rest(ms: seq<ChatMessage>): nat
    requires LastUser(ms).Some?
  {
    PromptBytes(ms[LastUser(ms).value := ms[LastUser(ms).value].(content := "")])
  }

  /** After dropping, either the prompt fits, or there is nothing to truncate, or what cannot be
      truncated leaves room for the three bytes of the ellipsis. */
  predicate Fits(ms: seq<ChatMessage>, max: nat) {
    var d := Dropped(ms, max);
    PromptBytes(d) <= max || LastUser(d).None? || Rest(d) + 3 <= max
  }

  lemma {:induction false} BytesConcat(a: seq<ChatMessage>, b: seq<ChatMessage>)
    ensures PromptBytes(a + b) == PromptBytes(a) + PromptBytes(b)
  {
    if a == [] {
      assert a + b == b;
    } else {
      BytesConcat(a[1..], b);
      assert (a + b)[1..] == a[1..] + b;
    }
  }

  lemma BytesUpdate(ms: seq<ChatMessage>, i: nat, m: ChatMessage)
    requires i < |ms|
    ensures PromptBytes(ms[i := m]) == PromptBytes(ms) - MessageBytes(ms[i]) + MessageBytes(m)
  {
    BytesAround(ms, i);
    BytesAround(ms[i := m], i);
    assert ms[i := m][..i] == ms[..i] && ms[i := m][i + 1..] == ms[i + 1..];
  }

  lemma BytesAround(ms: seq<ChatMessage>, i: nat)
    requires i < |ms|
    ensures PromptBytes(ms) == PromptBytes(ms[..i]) + MessageBytes(ms[i]) + PromptBytes(ms[i + 1..])
  {
    var rest := ms[i..];
    assert ms == ms[..i] + rest;
    assert rest[0] == ms[i] && rest[1..] == ms[i + 1..];
    BytesConcat(ms[..i], rest);
  }

  /** A prefix is shorter by at least one byte per character cut. */
  lemma PrefixBytes(s: string, k: nat)
    requires k <= |s|
    ensures ByteLen(s[..k]) + |s| - k <= ByteLen(s)
  {
    assert s == s[..k] + s[k..];
    ByteLenConcat(s[..k], s[k..]);
    ByteLenAtLeastChars(s[k..]);
  }

  lemma CutBytes(content: string, over: nat)
    ensures ByteLen(Cut(content, over)) == ByteLen(content[..SaturatingSub(|content|, over + 32)]) + 3
  {
    ByteLenConcat(content[..SaturatingSub(|content|, over + 32)], [ELLIPSIS]);
    assert ByteLen([ELLIPSIS]) == 3;
  }

  /** One truncation is enough exactly when the untouchable part leaves three bytes; otherwise
      nothing but the ellipsis is left. */
  lemma TruncateBytes(ms: seq<ChatMessage>, max: nat)
    requires LastUser(ms).Some? && PromptBytes(ms) > max
    ensures var t := TruncateUser(ms, max);
            && LastUser(t) == LastUser(ms) && Rest(t) == Rest(ms)
            && (PromptBytes(t) <= max <==> Rest(ms) + 3 <= max)
            && (PromptBytes(t) > max ==> t[LastUser(ms).value].content == [ELLIPSIS])
  {
    var i := LastUser(ms).value;
    var c := ms[i].content;
    var over := PromptBytes(ms) - max;
    var k := SaturatingSub(|c|, over + 32);
    var t := TruncateUser(ms, max);
    CutBytes(c, over);
    PrefixBytes(c, k);
    BytesUpdate(ms, i, ms[i].(content := ""));
    BytesUpdate(ms, i, ms[i].(content := Cut(c, over)));
    LastUserUpdate(ms, i, ms[i].(content := Cut(c, over)));
    UpdatedTwice(ms, i, ms[i].(content := Cut(c, over)), ms[i].(content := ""));
    if k == 0 {
      assert Cut(c, over) == [ELLIPSIS];
      assert ByteLen(c[..0]) == 0;
    }
  }

  lemma UpdatedTwice(ms: seq<ChatMessage>, i: nat, m: ChatMessage, n: ChatMessage)
    requires i < |ms|
    ensures ms[i := m][i := n] == ms[i := n]
  {
  }

  lemma LastUserIs(ms: seq<ChatMessage>, i: nat)
    requires i < |ms| && IsUser(ms[i]) && forall j :: i < j < |ms| ==> !IsUser(ms[j])
    ensures LastUser(ms) == Some(i)
  {
  }

  lemma LastUserUpdate(ms: seq<ChatMessage>, i: nat, m: ChatMessage)
    requires LastUser(ms) == Some(i) && m.role == ms[i].role
    ensures LastUser(ms[i := m]) == Some(i)
  {
    LastUserIs(ms[i := m], i);
  }

  /** A lone ellipsis truncates to itself: over budget, the loop is stuck. */
  lemma EllipsisIsFixed(ms: seq<ChatMessage>, max: nat)
    requires LastUser(ms).Some? && PromptBytes(ms) > max && ms[LastUser(ms).value].content == [ELLIPSIS]
    ensures TruncateUser(ms, max) == ms
  {
    var i := LastUser(ms).value;
    assert Cut([ELLIPSIS], PromptBytes(ms) - max) == [ELLIPSIS];
    assert ms[i].(content := [ELLIPSIS]) == ms[i];
  }

  lemma TruncateKeepsRoles(ms: seq<ChatMessage>, max: nat)
    requires LastUser(ms).Some? && PromptBytes(ms) > max && !CanDrop(ms)
    ensures !CanDrop(TruncateUser(ms, max))
  {
    TruncateBytes(ms, max);
    var t := TruncateUser(ms, max);
    assert forall i :: 0 <= i < |ms| ==> t[i].role == ms[i].role;
    assert forall i :: 0 <= i < |ms| ==> (Droppable(t, i) <==> Droppable(ms, i));
  }

  // ---------------------------------------------------------------- when the loop stops

  lemma StopsShift(ms: seq<ChatMessage>, max: nat)
    requires Turn(ms, max).Some?
    ensures Stops(ms, max) <==> Stops(Turn(ms, max).value, max)
  {
    var next := Turn(ms, max).value;
    if Stops(ms, max) {
      var n: nat :| Turn(Turns(ms, max, n), max).None?;
      assert Turns(ms, max, n) == Turns(next, max, n - 1);
    }
    if Stops(next, max) {
      var n: nat :| Turn(Turns(next, max, n), max).None?;
      assert Turns(ms, max, n + 1) == Turns(next, max, n);
    }
  }

  lemma {:induction false} StuckForever(ms: seq<ChatMessage>, max: nat, n: nat)
    requires Turn(ms, max) == Some(ms)
    ensures Turns(ms, max, n) == ms
    decreases n
  {
    if n > 0 { StuckForever(ms, max, n - 1); }
  }

  lemma TruncationDecides(ms: seq<ChatMessage>, max: nat)
    requires PromptBytes(ms) > max && !CanDrop(ms) && LastUser(ms).Some?
    ensures Stops(ms, max) <==> Rest(ms) + 3 <= max
  {
    var t := TruncateUser(ms, max);
    TruncateBytes(ms, max);
    TruncateKeepsRoles(ms, max);
    StopsShift(ms, max);
    if Rest(ms) + 3 <= max {
      assert Turn(Turns(t, max, 0), max).None?;
    } else {
      EllipsisIsFixed(t, max);
      if Stops(t, max) {
        var n: nat :| Turn(Turns(t, max, n), max).None?;
        StuckForever(t, max, n);
      }
    }
  }

  /** The theorem: the loop stops exactly for the prompts that fit. */
  lemma {:induction false} StopsExactlyWhenFits(ms: seq<ChatMessage>, max: nat)
    ensures Stops(ms, max) <==> Fits(ms, max)
    decreases |ms|
  {
    if Turn(ms, max).None? {
      assert Turn(Turns(ms, max, 0), max).None?;
    } else if CanDrop(ms) {
      StopsShift(ms, max);
      StopsExactlyWhenFits(DropOldest(ms), max);
    } else {
      TruncationDecides(ms, max);
    }
  }

  /** When it stops, it has computed `Enforced`, with at most one truncation. */
  lemma {:induction false} TurnsReachEnforced(ms: seq<ChatMessage>, max: nat, n: nat)
    requires Turn(Turns(ms, max, n), max).None?
    ensures Turns(ms, max, n) == Enforced(ms, max)
    decreases |ms|, n
  {
    if Turn(ms, max).Some? {
      assert n > 0;
      if CanDrop(ms) {
        TurnsReachEnforced(DropOldest(ms), max, n - 1);
      } else {
        OneTruncation(ms, max, n);
      }
    }
  }

  lemma OneTruncation(ms: seq<ChatMessage>, max: nat, n: nat)
    requires PromptBytes(ms) > max && !CanDrop(ms) && LastUser(ms).Some? && n > 0 && Turn(Turns(ms, max, n), max).None?
    ensures Turns(ms, max, n) == TruncateUser(ms, max)
  {
    assert Stops(ms, max);
    TruncationDecides(ms, max);
    TruncateBytes(ms, max);
    assert Turns(ms, max, n) == Turns(TruncateUser(ms, max), max, n - 1);
  }

  // ---------------------------------------------------------------- what survives

  function Systems(ms: seq<ChatMessage>): seq<ChatMessage> {
    if ms == [] then [] else (if IsSystem(ms[0]) then [ms[0]] else []) + Systems(ms[1..])
  }

  lemma {:induction false} SystemsConcat(a: seq<ChatMessage>, b: seq<ChatMessage>)
    ensures Systems(a + b) == Systems(a) + Systems(b)
  {
    if a == [] {
      assert a + b == b;
    } else {
      var first := if IsSystem(a[0]) then [a[0]] else [];
      SystemsConcat(a[1..], b);
      assert (a + b)[0] == a[0] && (a + b)[1..] == a[1..] + b;
      Assoc(first, Systems(a[1..]), Systems(b));
    }
  }

  lemma SystemsAround(ms: seq<ChatMessage>, i: nat)
    requires i < |ms| && !IsSystem(ms[i])
    ensures Systems(ms) == Systems(ms[..i]) + Systems(ms[i + 1..])
  {
    var rest := ms[i..];
    assert ms == ms[..i] + rest;
    assert rest[0] == ms[i] && rest[1..] == ms[i + 1..];
    SystemsConcat(ms[..i], rest);
    SkipOther(rest);
  }

  lemma SkipOther(ms: seq<ChatMessage>)
    requires ms != [] && !IsSystem(ms[0])
    ensures Systems(ms) == Systems(ms[1..])
  {
    assert Systems(ms) == [] + Systems(ms[1..]);
  }

  /** `a` can be obtained from `b` by leaving messages out. */
  ghost predicate Subsequence(a: seq<ChatMessage>, b: seq<ChatMessage>) {
    a == [] || (b != [] && ((a[0] == b[0] && Subsequence(a[1..], b[1..])) || Subsequence(a, b[1..])))
  }

  lemma {:induction false} SubsequenceSelf(a: seq<ChatMessage>)
    ensures Subsequence(a, a)
  {
    if a != [] { SubsequenceSelf(a[1..]); }
  }

  lemma {:induction false} SubsequenceRemove(a: seq<ChatMessage>, b: seq<ChatMessage>, i: nat)
    requires i < |b| && Subsequence(a, Remove(b, i))
    ensures Subsequence(a, b)
    decreases |b|
  {
    if a != [] {
      if i == 0 {
        assert Remove(b, 0) == b[1..];
      } else {
        assert Remove(b, i)[1..] == Remove(b[1..], i - 1);
        if a[0] == b[0] && Subsequence(a[1..], Remove(b, i)[1..]) {
          SubsequenceRemove(a[1..], b[1..], i - 1);
        } else {
          SubsequenceRemove(a, b[1..], i - 1);
        }
      }
    }
  }

  predicate SameLastUser(ms: seq<ChatMessage>, ns: seq<ChatMessage>) {
    match (LastUser(ms), LastUser(ns))
    case (Some(i), Some(j)) => ms[i] == ns[j]
    case (None, None) => true
    case _ => false
  }

  lemma RemoveKeepsLastUser(ms: seq<ChatMessage>, i: nat)
    requires i < |ms| && i != Kept(ms)
    ensures SameLastUser(ms, Remove(ms, i))
  {
    var r := Remove(ms, i);
    assert forall j :: 0 <= j < |r| ==> r[j] == ms[if j < i then j else j + 1];
    match LastUser(ms) {
      case Some(u) => LastUserIs(r, if i < u then u - 1 else u);
      case None =>
    }
  }

  lemma DropKeeps(ms: seq<ChatMessage>)
    requires CanDrop(ms)
    ensures var r := DropOldest(ms);
            r[0] == ms[0] && Systems(r) == Systems(ms) && SameLastUser(ms, r)
  {
    var i := FirstDroppable(ms, 0).value;
    RemoveKeepsLastUser(ms, i);
    SystemsAround(ms, i);
    SystemsConcat(ms[..i], ms[i + 1..]);
  }

  lemma {:induction false} DroppedKeeps(ms: seq<ChatMessage>, max: nat)
    ensures var d := Dropped(ms, max);
            && Systems(d) == Systems(ms) && SameLastUser(ms, d) && Subsequence(d, ms)
            && (ms != [] ==> d != [] && d[0] == ms[0])
    decreases |ms|
  {
    if PromptBytes(ms) <= max || !CanDrop(ms) {
      SubsequenceSelf(ms);
    } else {
      DropKeeps(ms);
      DroppedKeeps(DropOldest(ms), max);
      SubsequenceRemove(Dropped(ms, max), ms, FirstDroppable(ms, 0).value);
    }
  }

  /** A prefix of `content` with the cut marked. */
  ghost predicate Shortened(content: string, out: string) {
    exists k :: 0 <= k <= |content| && out == content[..k] + [ELLIPSIS]
  }

  /** The theorem about the result: within budget if there is a user message; system messages
      untouched and in order; whoever survives keeps its place; and the last user message is there,
      whole or as a marked prefix. */
  lemma EnforcedKeeps(ms: seq<ChatMessage>, max: nat)
    requires Fits(ms, max)
    ensures var r := Enforced(ms, max);
            && Systems(r) == Systems(ms)
            && LastUser(r).Some? == LastUser(ms).Some?
            && (LastUser(ms).Some? ==>
                  && PromptBytes(r) <= max
                  && var (i, j) := (LastUser(ms).value, LastUser(r).value);
                     && (r[j] == ms[i] || Shortened(ms[i].content, r[j].content))
                     && Subsequence(r[j := ms[i]], ms))
  {
    var d := Dropped(ms, max);
    DroppedKeeps(ms, max);
    if PromptBytes(d) > max && LastUser(d).Some? {
      TruncateBytes(d, max);
      var j := LastUser(d).value;
      var r := TruncateUser(d, max);
      assert r[j := d[j]] == d;
      SystemsAround(d, j);
      SystemsAround(r, j);
      assert r[..j] == d[..j] && r[j + 1..] == d[j + 1..];
    } else if LastUser(d).Some? {
      assert d[LastUser(d).value := d[LastUser(d).value]] == d;
    }
  }

  // ---------------------------------------------------------------- the condition, in closed form

  lemma {:induction false} BytesLowerBound(ms: seq<ChatMessage>, u: nat)
    requires u < |ms| && IsUser(ms[u])
    ensures PromptBytes(ms) >= PromptBytes(Systems(ms)) + MessageBytes(ms[u])
    ensures (forall i :: 0 <= i < |ms| ==> IsSystem(ms[i]) || i == u) ==>
              PromptBytes(ms) == PromptBytes(Systems(ms)) + MessageBytes(ms[u])
  {
    SystemsAround(ms, u);
    BytesAround(ms, u);
    BytesConcat(Systems(ms[..u]), Systems(ms[u + 1..]));
    SystemsBytes(ms[..u]);
    SystemsBytes(ms[u + 1..]);
  }

  lemma {:induction false} SystemsBytes(ms: seq<ChatMessage>)
    ensures PromptBytes(Systems(ms)) <= PromptBytes(ms)
    ensures (forall i :: 0 <= i < |ms| ==> IsSystem(ms[i])) ==> Systems(ms) == ms
  {
    if ms != [] {
      SystemsBytes(ms[1..]);
      BytesConcat(if IsSystem(ms[0]) then [ms[0]] else [], Systems(ms[1..]));
    }
  }

  function Min(a: nat, b: nat): nat { if a < b then a else b }

  /** For every prompt the builder makes, one that starts with a system message and holds a user
      message: the loop stops exactly when the system messages, the four bytes of the role, and the
      user's content or an ellipsis, whichever is shorter, fit. */
  lemma FitsInClosedForm(ms: seq<ChatMessage>, max: nat)
    requires ms != [] && IsSystem(ms[0]) && LastUser(ms).Some?
    ensures Fits(ms, max) <==>
            PromptBytes(Systems(ms)) + 4 + Min(3, ByteLen(ms[LastUser(ms).value].content)) <= max
  {
    var d := Dropped(ms, max);
    DroppedKeeps(ms, max);
    var u := LastUser(d).value;
    BytesLowerBound(d, u);
    BytesUpdate(d, u, d[u].(content := ""));
    assert ByteLen("user") == 4;
    if PromptBytes(d) > max {
      NothingLeftToDrop(d);
    }
  }

  lemma NothingLeftToDrop(d: seq<ChatMessage>)
    requires !CanDrop(d) && d != [] && IsSystem(d[0]) && LastUser(d).Some?
    ensures forall i :: 0 <= i < |d| ==> IsSystem(d[i]) || i == LastUser(d).value
  {
    UserIsNotFirst(d, LastUser(d).value);
    KeptIsUser(d);
    forall i | 0 <= i < |d| ensures IsSystem(d[i]) || i == LastUser(d).value {
      OnlyKeptOrSystem(d, LastUser(d).value, i);
    }
  }

  lemma OnlyKeptOrSystem(d: seq<ChatMessage>, u: nat, i: nat)
    requires !CanDrop(d) && i < |d| && IsSystem(d[0]) && 0 < u < |d| && u == Kept(d)
    ensures IsSystem(d[i]) || i == u
  {
    if 0 < i && |d| > 2 { NoneIsDroppable(d, i); }
  }

  lemma KeptIsUser(d: seq<ChatMessage>)
    requires LastUser(d).Some?
    ensures Kept(d) == LastUser(d).value
  {
  }

  lemma NoneIsDroppable(d: seq<ChatMessage>, i: nat)
    requires 0 < i < |d| && FirstDroppable(d, 0).None?
    ensures IsSystem(d[i]) || i == Kept(d)
  {
    assert !Droppable(d, i);
  }

  lemma UserIsNotFirst(d: seq<ChatMessage>, u: nat)
    requires u < |d| && IsSystem(d[0]) && IsUser(d[u])
    ensures u != 0
  {
    NotBoth(d[0]);
  }

  lemma NotBoth(m: ChatMessage)
    ensures !(IsSystem(m) && IsUser(m))
  {
    assert "system"[0] != "user"[0];
  }

  // ---------------------------------------------------------------- how much truncation cuts

  /** A long ASCII message is cut 29 bytes below the budget: 32 characters more than needed, less the three
      bytes of the ellipsis. */
  lemma TruncationSlack(ms: seq<ChatMessage>, max: nat)
    requires LastUser(ms).Some? && PromptBytes(ms) > max
    requires var content := ms[LastUser(ms).value].content;
             Ascii(content) && |content| >= PromptBytes(ms) - max + 32
    ensures PromptBytes(TruncateUser(ms, max)) == max - 29
  {
    var i := LastUser(ms).value;
    var content, over := ms[i].content, PromptBytes(ms) - max;
    var kept := content[..|content| - (over + 32)];
    AsciiBytes(content);
    AsciiBytes(kept);
    ByteLenConcat(kept, [ELLIPSIS]);
    BytesUpdate(ms, i, ms[i].(content := Cut(content, over)));
  }
}
