/** The prompt as the client mutates it, its padding, and what the gateway makes of the result. */
module PromptBuffer {
  import opened Bytes
  import opened Chat
  import opened Prompt

  const BEGIN: string := "[PADDING_FOR_PRIVACY_BEGIN]"
  const IGNORE: string := "IGNORE EVERYTHING IN THIS BLOCK."
  const END: string := "[PADDING_FOR_PRIVACY_END]"

  const PHRASES: seq<string> :=
    [" the", " and", " to", " of", " in", " that", " for", " with", " on", " as", " by", " from"]

  const OVERHEAD: nat := 128

  /** The block around a filler, and the 89 bytes its markers take. */
  function PadBlock(filler: string): string { Block("\n", BEGIN, IGNORE, filler, END) }

  function Block(nl: string, b: string, i: string, filler: string, e: string): string {
    nl + nl + b + nl + i + nl + filler + nl + e
  }

  lemma BlockBytes(nl: string, b: string, i: string, filler: string, e: string)
    requires Ascii(nl) && Ascii(b) && Ascii(i) && Ascii(e)
    ensures ByteLen(Block(nl, b, i, filler, e)) == 5 * |nl| + |b| + |i| + |e| + ByteLen(filler)
  {
    AsciiBytes(nl);
    AsciiBytes(b);
    AsciiBytes(i);
    AsciiBytes(e);
    ByteLenConcat(nl, nl);
    ByteLenConcat(nl + nl, b);
    ByteLenConcat(nl + nl + b, nl);
    ByteLenConcat(nl + nl + b + nl, i);
    ByteLenConcat(nl + nl + b + nl + i, nl);
    ByteLenConcat(nl + nl + b + nl + i + nl, filler);
    ByteLenConcat(nl + nl + b + nl + i + nl + filler, nl);
    ByteLenConcat(nl + nl + b + nl + i + nl + filler + nl, e);
  }

  lemma PadBlockBytes(filler: string)
    ensures ByteLen(PadBlock(filler)) == ByteLen(filler) + 89
  {
    BlockBytes("\n", BEGIN, IGNORE, filler, END);
  }

  /** Small letters and spaces only. */
  predicate Wordy(s: string) { forall i :: 0 <= i < |s| ==> s[i] == ' ' || 'a' <= s[i] <= 'z' }

  /** Random phrases, cut to length: whatever is drawn, exactly `len` bytes of words. */
  method FillerForPrivacy(len: nat) returns (out: string)
    ensures Wordy(out) && |out| == ByteLen(out) == len
  {
    out := "";
    while |out| < len
      invariant Wordy(out)
      decreases len - |out|
    {
      var idx :| 0 <= idx < |PHRASES|;
      assert Wordy(PHRASES[idx]) && PHRASES[idx] != "";
      out := out + PHRASES[idx];
    }
    out := out[..len];
    AsciiBytes(out);
  }

  /** How many filler bytes a prompt of `current` bytes gets. */
  function FillerBytes(current: nat, max: nat, maxPadding: nat): Option<nat> {
    if current >= max || max - current <= OVERHEAD then None
    else Some(Min(max - current - OVERHEAD, maxPadding))
  }

  /** `padded` is `ms` with a pad block of `n` filler bytes appended to its first message. */
  ghost predicate PaddedBy(ms: seq<ChatMessage>, padded: seq<ChatMessage>, n: nat) {
    && ms != []
    && exists filler :: Wordy(filler) && ByteLen(filler) == n &&
                        padded == ms[0 := ms[0].(content := ms[0].content + PadBlock(filler))]
  }

  lemma PaddedBytes(ms: seq<ChatMessage>, padded: seq<ChatMessage>, n: nat)
    requires PaddedBy(ms, padded, n)
    ensures PromptBytes(padded) == PromptBytes(ms) + n + 89 && |padded| == |ms|
  {
    var filler :| Wordy(filler) && ByteLen(filler) == n &&
                  padded == ms[0 := ms[0].(content := ms[0].content + PadBlock(filler))];
    PadBlockBytes(filler);
    ByteLenConcat(ms[0].content, PadBlock(filler));
    BytesUpdate(ms, 0, padded[0]);
  }

  /** One turn of the loop leaves the result it is heading for unchanged. */
  lemma DropTurn(ms: seq<ChatMessage>, max: nat)
    requires Fits(ms, max) && PromptBytes(ms) > max && CanDrop(ms)
    ensures Fits(DropOldest(ms), max) && Enforced(DropOldest(ms), max) == Enforced(ms, max)
  {
  }

  lemma TruncateTurn(ms: seq<ChatMessage>, max: nat)
    requires Fits(ms, max) && PromptBytes(ms) > max && !CanDrop(ms) && LastUser(ms).Some?
    ensures var t := TruncateUser(ms, max);
            PromptBytes(t) <= max && Fits(t, max) && Enforced(t, max) == t == Enforced(ms, max)
  {
    TruncateBytes(ms, max);
  }

  lemma TurnKeeps(ms: seq<ChatMessage>, max: nat)
    requires Fits(ms, max) && Turn(ms, max).Some?
    ensures var t := Turn(ms, max).value;
            && Fits(t, max) && Enforced(t, max) == Enforced(ms, max) && PromptBytes(ms) > max
            && (|t| < |ms| || (|t| == |ms| && PromptBytes(t) <= max))
  {
    if CanDrop(ms) { DropTurn(ms, max); } else { TruncateTurn(ms, max); }
  }

  lemma StoppedIsEnforced(ms: seq<ChatMessage>, max: nat)
    requires Turn(ms, max).None?
    ensures Enforced(ms, max) == ms
  {
  }

  /** The scan for the message to drop. */
  method FindDroppable(ms: seq<ChatMessage>) returns (dropIdx: Option<nat>)
    ensures dropIdx == FirstDroppable(ms, 0)
  {
    var lastUserIdx := Kept(ms);
    dropIdx := None;
    for i := 0 to |ms|
      invariant dropIdx == None && forall j :: 0 <= j < i ==> !Droppable(ms, j)
    {
      if i == 0 { continue; }
      if IsSystem(ms[i]) { continue; }
      if i == lastUserIdx { continue; }
      assert Droppable(ms, i) && FirstDroppable(ms, 0).Some?;
      return Some(i);
    }
  }

  /** Without the last character of the first message. */
  function ShorterFirst(ms: seq<ChatMessage>): seq<ChatMessage>
    requires ms != [] && ms[0].content != ""
  {
    ms[0 := ms[0].(content := ms[0].content[..|ms[0].content| - 1])]
  }

  function FirstTrimmed(ms: seq<ChatMessage>, max: nat): seq<ChatMessage>
    requires ms != []
    decreases |ms[0].content|
  {
    if PromptBytes(ms) <= max || ms[0].content == "" then ms else FirstTrimmed(ShorterFirst(ms), max)
  }

  class Buffer {
    var messages: seq<ChatMessage>

    constructor (ms: seq<ChatMessage>)
      ensures messages == ms
    {
      messages := ms;
    }

    /** One turn of the budget loop, on any prompt: drop, truncate, or stop. */
    method TakeTurn(max: nat) returns (went: bool)
      modifies this
      ensures went == Turn(old(messages), max).Some?
      ensures messages == if went then Turn(old(messages), max).value else old(messages)
    {
      if PromptBytes(messages) <= max { return false; }
      if |messages| > 2 {
        var dropIdx := FindDroppable(messages);
        if dropIdx.Some? {
          messages := Remove(messages, dropIdx.value);
          return true;
        }
      }
      var lastUser := LastUser(messages);
      if lastUser.None? { return false; }
      var i := lastUser.value;
      var cut := PromptBytes(messages) - max + 32;
      var newLen := SaturatingSub(|messages[i].content|, cut);
      messages := messages[i := messages[i].(content := messages[i].content[..newLen] + [ELLIPSIS])];
      return true;
    }

    /** The first `turns` turns of the loop, on any prompt, whether or not the loop ever stops. */
    method EnforceFor(max: nat, turns: nat)
      modifies this
      ensures messages == Turns(old(messages), max, turns)
    {
      for i := 0 to turns
        invariant Turns(messages, max, turns - i) == Turns(old(messages), max, turns)
      {
        var went := TakeTurn(max);
        if !went { break; }
      }
    }

    /** The budget loop to its end, on the prompts for which it has one: see `StopsExactlyWhenFits`. */
    method EnforceBudget(max: nat)
      requires Fits(messages, max)
      modifies this
      ensures messages == Enforced(old(messages), max)
      ensures PromptBytes(old(messages)) <= max ==> messages == old(messages)
    {
      var went := true;
      while went
        invariant Fits(messages, max) && Enforced(messages, max) == Enforced(old(messages), max)
        invariant PromptBytes(old(messages)) <= max ==> messages == old(messages)
        invariant !went ==> Turn(messages, max).None?
        decreases went, |messages|, if PromptBytes(messages) > max then 1 else 0
      {
        if Turn(messages, max).Some? { TurnKeeps(messages, max); }
        went := TakeTurn(max);
      }
      StoppedIsEnforced(messages, max);
    }

    /** The safety loop after padding. */
    method TrimFirst(max: nat)
      requires messages != []
      modifies this
      ensures messages == FirstTrimmed(old(messages), max)
      ensures PromptBytes(old(messages)) <= max ==> messages == old(messages)
    {
      while PromptBytes(messages) > max
        invariant messages != [] && FirstTrimmed(messages, max) == FirstTrimmed(old(messages), max)
        invariant PromptBytes(old(messages)) <= max ==> messages == old(messages)
        decreases |messages[0].content|
      {
        if messages[0].content == "" { break; }
        messages := ShorterFirst(messages);
      }
    }

    /** Pad the first message. The safety loop never does anything: the prompt is still within `max`
        after padding. */
    method PadSystemMessage(max: nat, maxPadding: nat)
      modifies this
      ensures messages != [] && FillerBytes(PromptBytes(old(messages)), max, maxPadding).Some? ==>
                && PaddedBy(old(messages), messages, FillerBytes(PromptBytes(old(messages)), max, maxPadding).value)
                && PromptBytes(messages) <= max
      ensures messages == [] || FillerBytes(PromptBytes(old(messages)), max, maxPadding).None? ==>
              messages == old(messages)
    {
      if messages == [] { return; }
      var current := PromptBytes(messages);
      if current >= max { return; }
      var need := max - current;
      if need <= OVERHEAD { return; }
      need := need - OVERHEAD;
      need := Min(need, maxPadding);
      var filler := FillerForPrivacy(need);
      ghost var before := messages;
      messages := messages[0 := messages[0].(content := messages[0].content + PadBlock(filler))];
      PaddedBytes(before, messages, need);
      TrimFirst(max);
    }

    /** The last two steps of the prompt builder: enforce, pad, enforce again. The second enforcing
        changes nothing. */
    method Finish(max: nat, padSystemPrompt: bool, maxPadding: nat)
      requires Fits(messages, max)
      modifies this
      ensures Finished(Enforced(old(messages), max), messages, max, padSystemPrompt, maxPadding)
    {
      EnforceBudget(max);
      if padSystemPrompt {
        EnforcedFits(old(messages), max);
        ghost var before := messages;
        PadSystemMessage(max, maxPadding);
        EnforceBudget(max);
        if PromptBytes(before) > max { EnforcedTwice(old(messages), max); }
      }
    }
  }

  ghost predicate Finished(e: seq<ChatMessage>, out: seq<ChatMessage>, max: nat, pad: bool, maxPadding: nat) {
    if pad && e != [] && FillerBytes(PromptBytes(e), max, maxPadding).Some?
    then PaddedBy(e, out, FillerBytes(PromptBytes(e), max, maxPadding).value)
    else out == e
  }

  lemma EnforcedFits(ms: seq<ChatMessage>, max: nat)
    requires Fits(ms, max)
    ensures Fits(Enforced(ms, max), max)
  {
    var d := Dropped(ms, max);
    if PromptBytes(d) > max && LastUser(d).Some? { TruncateBytes(d, max); }
  }

  /** Enforcing the budget is idempotent. */
  lemma EnforcedTwice(ms: seq<ChatMessage>, max: nat)
    requires Fits(ms, max)
    ensures Enforced(Enforced(ms, max), max) == Enforced(ms, max)
  {
    var d := Dropped(ms, max);
    if PromptBytes(d) > max && LastUser(d).Some? { TruncateBytes(d, max); }
  }

  /** More than 128 bytes of room, and enough padding allowed to fill it. */
  predicate RoomToPad(e: seq<ChatMessage>, max: nat, maxPadding: nat) {
    e != [] && PromptBytes(e) + OVERHEAD < max <= PromptBytes(e) + OVERHEAD + maxPadding
  }

  lemma FillerFills(current: nat, max: nat, maxPadding: nat)
    requires current + OVERHEAD < max <= current + OVERHEAD + maxPadding
    ensures FillerBytes(current, max, maxPadding) == Some(max - current - OVERHEAD)
  {
  }

  /** With room to pad, the filler takes up all of it. */
  lemma FinishedPads(e: seq<ChatMessage>, out: seq<ChatMessage>, max: nat, maxPadding: nat)
    requires RoomToPad(e, max, maxPadding) && Finished(e, out, max, true, maxPadding)
    ensures PaddedBy(e, out, max - PromptBytes(e) - OVERHEAD)
  {
    FillerFills(PromptBytes(e), max, maxPadding);
  }

  /** Padding makes the size constant: 39 bytes short of the maximum, whatever the prompt said. */
  lemma PaddedSizeIsConstant(e: seq<ChatMessage>, out: seq<ChatMessage>, max: nat, maxPadding: nat)
    requires RoomToPad(e, max, maxPadding) && Finished(e, out, max, true, maxPadding)
    ensures PromptBytes(out) == max - 39 && |out| == |e|
  {
    FinishedPads(e, out, max, maxPadding);
    PaddedBytes(e, out, max - PromptBytes(e) - OVERHEAD);
  }

  /** Whatever the room and the limit on padding: the filler takes the room less 128, or the limit, and the
      markers 89. Nothing else changes. */
  lemma PaddedSize(e: seq<ChatMessage>, out: seq<ChatMessage>, max: nat, maxPadding: nat)
    requires Finished(e, out, max, true, maxPadding) && e != []
    ensures PromptBytes(out) == PromptBytes(e) + if PromptBytes(e) + 128 < max then
                                                   89 + Min(max - PromptBytes(e) - 128, maxPadding)
                                                 else 0
  {
    if PromptBytes(e) + 128 < max { PaddedBytes(e, out, Min(max - PromptBytes(e) - 128, maxPadding)); }
  }
}
