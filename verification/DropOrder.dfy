/** Which messages the budget loop drops: the oldest ones that may be dropped, and no more than needed. */
module DropOrder {
  import opened Chat
  import opened Prompt

  /** From position `i` on, without the droppable messages in front of position `c`. */
  function Pruned(ms: seq<ChatMessage>, i: nat, c: nat): seq<ChatMessage>
    requires i <= |ms| && c <= |ms|
    decreases |ms| - i
  {
    if i >= c then ms[i..] else (if Droppable(ms, i) then [] else [ms[i]]) + Pruned(ms, i + 1, c)
  }

  /** Everything droppable before `c` goes, everything else stays, and with one message more it would
      still be over budget. */
  ghost predicate CutAt(ms: seq<ChatMessage>, max: nat, c: nat) {
    && c <= |ms| && Dropped(ms, max) == Pruned(ms, 0, c)
    && (c > 0 ==> Droppable(ms, c - 1) && PromptBytes(Pruned(ms, 0, c - 1)) > max)
  }

  lemma KeptShifts(ms: seq<ChatMessage>, i: nat)
    requires Droppable(ms, i)
    ensures Kept(Remove(ms, i)) == if i < Kept(ms) then Kept(ms) - 1 else Kept(ms)
  {
    var r := Remove(ms, i);
    assert forall j :: 0 <= j < |r| ==> r[j] == ms[if j < i then j else j + 1];
    match LastUser(ms) {
      case Some(u) => LastUserIs(r, if i < u then u - 1 else u);
      case None =>
    }
  }

  lemma DroppableShifts(ms: seq<ChatMessage>, i: nat, j: nat)
    requires Droppable(ms, i) && j < |ms| - 1
    ensures Droppable(Remove(ms, i), j) <==> Droppable(ms, if j < i then j else j + 1)
  {
    KeptShifts(ms, i);
    assert Remove(ms, i)[j] == ms[if j < i then j else j + 1];
  }

  /** Behind the removed message, pruning does the same one position earlier. */
  lemma {:induction false} PrunedBehind(ms: seq<ChatMessage>, i: nat, j: nat, c: nat)
    requires Droppable(ms, i) && i <= j <= |ms| - 1 && c <= |ms| - 1
    ensures Pruned(Remove(ms, i), j, c) == Pruned(ms, j + 1, c + 1)
    decreases |ms| - j
  {
    RemoveTail(ms, i, j);
    if j < c {
      DroppableShifts(ms, i, j);
      PrunedBehind(ms, i, j + 1, c);
    }
  }

  lemma RemoveTail(ms: seq<ChatMessage>, i: nat, j: nat)
    requires i <= j < |ms|
    ensures Remove(ms, i)[j..] == ms[j + 1..] && (j < |ms| - 1 ==> Remove(ms, i)[j] == ms[j + 1])
  {
  }

  /** In front of the first droppable message nothing is pruned. */
  lemma {:induction false} PrunedInFront(ms: seq<ChatMessage>, i: nat, j: nat, c: nat)
    requires j <= i <= c <= |ms| && forall k :: j <= k < i ==> !Droppable(ms, k)
    ensures Pruned(ms, j, c) == ms[j..i] + Pruned(ms, i, c)
    decreases i - j
  {
    if j < i {
      PrunedInFront(ms, i, j + 1, c);
      Prepend(ms, i, j, Pruned(ms, i, c));
    } else {
      assert ms[j..i] == [];
    }
  }

  lemma Prepend(ms: seq<ChatMessage>, i: nat, j: nat, rest: seq<ChatMessage>)
    requires j < i <= |ms|
    ensures [ms[j]] + (ms[j + 1..i] + rest) == ms[j..i] + rest
  {
    assert ms[j..i] == [ms[j]] + ms[j + 1..i];
  }

  /** Pruning after the first removal is pruning one position further. */
  lemma PrunedAfterRemove(ms: seq<ChatMessage>, i: nat, c: nat)
    requires Droppable(ms, i) && (forall k :: 0 <= k < i ==> !Droppable(ms, k)) && i <= c <= |ms| - 1
    ensures Pruned(Remove(ms, i), 0, c) == Pruned(ms, 0, c + 1)
  {
    NoneInFront(ms, i);
    PrunedInFront(Remove(ms, i), i, 0, c);
    PrunedInFront(ms, i, 0, c + 1);
    PrunedAtRemove(ms, i, c);
    RemoveHead(ms, i);
  }

  lemma PrunedAtRemove(ms: seq<ChatMessage>, i: nat, c: nat)
    requires Droppable(ms, i) && i <= c <= |ms| - 1
    ensures Pruned(Remove(ms, i), i, c) == Pruned(ms, i, c + 1)
  {
    PrunedBehind(ms, i, i, c);
    PrunedSkip(ms, i, c + 1);
  }

  lemma RemoveHead(ms: seq<ChatMessage>, i: nat)
    requires i < |ms|
    ensures Remove(ms, i)[0..i] == ms[0..i]
  {
  }

  lemma PrunedSkip(ms: seq<ChatMessage>, i: nat, c: nat)
    requires i < c <= |ms| && Droppable(ms, i)
    ensures Pruned(ms, i, c) == Pruned(ms, i + 1, c)
  {
    assert Pruned(ms, i, c) == [] + Pruned(ms, i + 1, c);
  }

  /** The theorem: dropping takes the oldest droppable messages, in order, until the prompt fits or
      none is left, and never one more than that. */
  lemma {:induction false} DropsOldestFirst(ms: seq<ChatMessage>, max: nat)
    ensures exists c :: CutAt(ms, max, c)
    decreases |ms|
  {
    if PromptBytes(ms) <= max || !CanDrop(ms) {
      assert Pruned(ms, 0, 0) == ms[0..] == ms;
      assert CutAt(ms, max, 0);
    } else {
      DropsOldestFirst(DropOldest(ms), max);
      var c :| CutAt(DropOldest(ms), max, c);
      CutShifts(ms, max, c);
    }
  }

  lemma CutShifts(ms: seq<ChatMessage>, max: nat, c: nat)
    requires PromptBytes(ms) > max && CanDrop(ms) && CutAt(DropOldest(ms), max, c)
    ensures exists d :: CutAt(ms, max, d)
  {
    var i := FirstDroppable(ms, 0).value;
    NoneInFront(ms, i);
    if c == 0 { FirstCut(ms, max, i); } else { LaterCut(ms, max, i, c); }
  }

  lemma NoneInFront(ms: seq<ChatMessage>, i: nat)
    requires Droppable(ms, i) && forall k :: 0 <= k < i ==> !Droppable(ms, k)
    ensures forall k :: 0 <= k < i ==> !Droppable(Remove(ms, i), k)
  {
    forall k | 0 <= k < i ensures !Droppable(Remove(ms, i), k) { DroppableShifts(ms, i, k); }
  }

  ghost predicate IsFirst(ms: seq<ChatMessage>, max: nat, i: nat) {
    && Droppable(ms, i) && (forall k :: 0 <= k < i ==> !Droppable(ms, k))
    && (forall k :: 0 <= k < i ==> !Droppable(Remove(ms, i), k))
    && PromptBytes(ms) > max && Dropped(ms, max) == Dropped(Remove(ms, i), max)
  }

  lemma FirstCut(ms: seq<ChatMessage>, max: nat, i: nat)
    requires IsFirst(ms, max, i) && CutAt(Remove(ms, i), max, 0)
    ensures CutAt(ms, max, i + 1)
  {
    var r := Remove(ms, i);
    assert Pruned(r, 0, 0) == r[0..] == r;
    PrunedNothing(ms, i);
    PrunedNothing(r, i);
    PrunedAfterRemove(ms, i, i);
  }

  lemma LaterCut(ms: seq<ChatMessage>, max: nat, i: nat, c: nat)
    requires IsFirst(ms, max, i) && c > 0 && CutAt(Remove(ms, i), max, c)
    ensures CutAt(ms, max, c + 1)
  {
    DroppableShifts(ms, i, c - 1);
    PrunedAfterRemove(ms, i, c);
    PrunedAfterRemove(ms, i, c - 1);
  }

  lemma PrunedNothing(ms: seq<ChatMessage>, i: nat)
    requires i <= |ms| && forall k :: 0 <= k < i ==> !Droppable(ms, k)
    ensures Pruned(ms, 0, i) == ms
  {
    PrunedInFront(ms, i, 0, i);
    assert ms[0..i] + ms[i..] == ms;
  }

  // ---------------------------------------------------------------- what is never dropped

  /** Two messages are never too many, and without a user message the last one stays. */
  lemma {:induction false} AlwaysKept(ms: seq<ChatMessage>, max: nat)
    ensures |ms| <= 2 ==> Dropped(ms, max) == ms
    ensures ms != [] && LastUser(ms).None? ==>
              var d := Dropped(ms, max);
              d != [] && d[|d| - 1] == ms[|ms| - 1]
    ensures |ms| > 2 ==> |Dropped(ms, max)| >= 2
    decreases |ms|
  {
    if PromptBytes(ms) > max && CanDrop(ms) {
      var next := DropOldest(ms);
      AlwaysKept(next, max);
      if LastUser(ms).None? { StillNoUser(ms, FirstDroppable(ms, 0).value); }
    }
  }

  lemma RemoveAt(ms: seq<ChatMessage>, i: nat, j: nat)
    requires i < |ms| && j < |ms| - 1
    ensures Remove(ms, i)[j] == ms[if j < i then j else j + 1]
  {
  }

  lemma StillNoUser(ms: seq<ChatMessage>, i: nat)
    requires Droppable(ms, i) && LastUser(ms).None?
    ensures LastUser(Remove(ms, i)).None? && Remove(ms, i)[|ms| - 2] == ms[|ms| - 1]
  {
    var r := Remove(ms, i);
    forall j | 0 <= j < |r| ensures !IsUser(r[j]) { RemoveAt(ms, i, j); }
    RemoveAt(ms, i, |ms| - 2);
  }
}
