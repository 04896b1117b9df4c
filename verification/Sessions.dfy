/** The session map: many callers ask for runtimes, with a read-locked look first and a write-locked
    second look before loading. Every lock section is one step. */
module Sessions {
  import opened Bytes

  // ---------------------------------------------------------------- ids and paths

  predicate IdChar(c: char) { 'a' <= c <= 'z' || 'A' <= c <= 'Z' || '0' <= c <= '9' || c == '-' || c == '_' }

  predicate ValidSessionId(id: string) { 0 < ByteLen(id) <= 64 && forall i :: 0 <= i < |id| ==> IdChar(id[i]) }

  datatype Config = Config(sessionsDir: string, defaultId: string, override: Option<string>)

  function OwnPath(cfg: Config, id: string): string { cfg.sessionsDir + "/" + id + ".session.json" }

  function SessionPathFor(cfg: Config, id: string): string {
    if id == cfg.defaultId && cfg.override.Some? then cfg.override.value else OwnPath(cfg, id)
  }

  lemma SuffixCancel(p: string, a: string, b: string, s: string)
    requires p + a + s == p + b + s
    ensures a == b
  {
    assert |a| == |b|;
    assert a == (p + a + s)[|p|..|p| + |a|];
    assert b == (p + b + s)[|p|..|p| + |b|];
  }

  /** Two sessions share a file exactly when one is the default, moved to where the other one lives. */
  lemma PathsAreDistinct(cfg: Config, id: string, other: string)
    requires id != other
    ensures SessionPathFor(cfg, id) == SessionPathFor(cfg, other)
       <==> cfg.override.Some? && (|| (id == cfg.defaultId && cfg.override.value == OwnPath(cfg, other))
                                   || (other == cfg.defaultId && cfg.override.value == OwnPath(cfg, id)))
  {
    var dir := cfg.sessionsDir + "/";
    if dir + id + ".session.json" == dir + other + ".session.json" { SuffixCancel(dir, id, other, ".session.json"); }
  }

  // ---------------------------------------------------------------- the protocol

  type Runtime = nat

  datatype Answer = Got(runtime: Runtime) | Refused | LoadFailed

  datatype Caller = Waiting(id: string) | Missed(id: string) | Done(id: string, answer: Answer)

  /** `next` is the next runtime to be built; a built runtime is a new object. */
  datatype State = State(sessions: map<string, Runtime>, next: Runtime, callers: seq<Caller>)

  datatype Step =
    | Call(id: string)
    | ReadLook(caller: nat)
    | WriteLook(caller: nat, loaded: bool)
    | InsertPrebuilt(id: string)

  predicate Enabled(s: State, step: Step) {
    match step
    case Call(_) => true
    case ReadLook(k) => k < |s.callers| && s.callers[k].Waiting?
    case WriteLook(k, _) => k < |s.callers| && s.callers[k].Missed?
    case InsertPrebuilt(_) => true
  }

  function Apply(s: State, step: Step): State
    requires Enabled(s, step)
  {
    match step
    case Call(id) => s.(callers := s.callers + [if ValidSessionId(id) then Waiting(id) else Done(id, Refused)])
    case ReadLook(k) =>
      var id := s.callers[k].id;
      s.(callers := s.callers[k := if id in s.sessions then Done(id, Got(s.sessions[id])) else Missed(id)])
    case WriteLook(k, loaded) =>
      var id := s.callers[k].id;
      if id in s.sessions then s.(callers := s.callers[k := Done(id, Got(s.sessions[id]))])
      else if !loaded then s.(callers := s.callers[k := Done(id, LoadFailed)])
      else State(s.sessions[id := s.next], s.next + 1, s.callers[k := Done(id, Got(s.next))])
    case InsertPrebuilt(id) =>
      if ValidSessionId(id) then s.(sessions := s.sessions[id := s.next], next := s.next + 1) else s
  }

  function Run(s: State, steps: seq<Step>): Option<State>
    decreases |steps|
  {
    if steps == [] then Some(s) else if Enabled(s, steps[0]) then Run(Apply(s, steps[0]), steps[1..]) else None
  }

  /** Some caller was given a runtime for this session. */
  predicate Held(s: State, id: string) { exists k :: 0 <= k < |s.callers| && Holds(s.callers[k], id) }

  predicate Holds(c: Caller, id: string) { c.Done? && c.answer.Got? && c.id == id }

  /** A prebuilt runtime is only inserted where no caller holds one. */
  predicate Harmless(s: State, step: Step) {
    step.InsertPrebuilt? ==> !ValidSessionId(step.id) || !Held(s, step.id)
  }

  predicate Orderly(s: State, steps: seq<Step>)
    decreases |steps|
  {
    steps == [] || !Enabled(s, steps[0]) || (Harmless(s, steps[0]) && Orderly(Apply(s, steps[0]), steps[1..]))
  }

  /** An answered caller holds the runtime the map holds. */
  predicate CallerOk(sessions: map<string, Runtime>, c: Caller) {
    if c.Done? then c.answer.Got? ==> c.id in sessions && sessions[c.id] == c.answer.runtime else ValidSessionId(c.id)
  }

  predicate CallersOk(s: State) { forall k :: 0 <= k < |s.callers| ==> CallerOk(s.sessions, s.callers[k]) }

  /** No two ids share a runtime, and only valid ids have one. */
  predicate MapOk(s: State) {
    && (forall id :: id in s.sessions ==> s.sessions[id] < s.next && ValidSessionId(id))
    && forall id, other :: id in s.sessions && other in s.sessions && s.sessions[id] == s.sessions[other] ==>
       id == other
  }

  predicate Consistent(s: State) { CallersOk(s) && MapOk(s) }

  lemma LoadKeeps(s: State, id: string)
    requires Consistent(s) && id !in s.sessions && ValidSessionId(id)
    ensures Consistent(s.(sessions := s.sessions[id := s.next], next := s.next + 1))
  {
    var t := s.(sessions := s.sessions[id := s.next], next := s.next + 1);
    forall k | 0 <= k < |t.callers| ensures CallerOk(t.sessions, t.callers[k]) {
      assert CallerOk(s.sessions, s.callers[k]);
    }
  }

  lemma AnswerKeeps(s: State, k: nat, c: Caller)
    requires Consistent(s) && k < |s.callers| && CallerOk(s.sessions, c)
    ensures Consistent(s.(callers := s.callers[k := c]))
  {
    var t := s.(callers := s.callers[k := c]);
    forall i | 0 <= i < |t.callers| ensures CallerOk(t.sessions, t.callers[i]) {
      assert CallerOk(s.sessions, s.callers[i]);
    }
  }

  /** Inserting a prebuilt runtime is harmless exactly when no caller holds one for that session. */
  lemma InsertKeepsIff(s: State, id: string)
    requires Consistent(s)
    ensures Consistent(Apply(s, InsertPrebuilt(id))) <==> !ValidSessionId(id) || !Held(s, id)
  {
    var t := Apply(s, InsertPrebuilt(id));
    if ValidSessionId(id) {
      if Held(s, id) {
        var k :| 0 <= k < |s.callers| && Holds(s.callers[k], id);
        assert CallerOk(s.sessions, s.callers[k]);
        assert !CallerOk(t.sessions, t.callers[k]);
      } else {
        forall k | 0 <= k < |t.callers| ensures CallerOk(t.sessions, t.callers[k]) {
          assert CallerOk(s.sessions, s.callers[k]) && !Holds(s.callers[k], id);
        }
      }
    }
  }

  /** Every lock section keeps consistency, except for an insertion over a runtime somebody holds. */
  lemma StepKeepsIff(s: State, step: Step)
    requires Consistent(s) && Enabled(s, step)
    ensures Consistent(Apply(s, step)) <==> Harmless(s, step)
  {
    match step {
      case Call(id) =>
        CallKeeps(s, id);
      case ReadLook(k) =>
        assert CallerOk(s.sessions, s.callers[k]);
        AnswerKeeps(s, k, Apply(s, step).callers[k]);
      case WriteLook(k, loaded) =>
        var id := s.callers[k].id;
        assert CallerOk(s.sessions, s.callers[k]);
        if id !in s.sessions && loaded {
          LoadKeeps(s, id);
          AnswerKeeps(s.(sessions := s.sessions[id := s.next], next := s.next + 1), k, Done(id, Got(s.next)));
        } else {
          AnswerKeeps(s, k, Apply(s, step).callers[k]);
        }
      case InsertPrebuilt(id) =>
        InsertKeepsIff(s, id);
    }
  }

  lemma CallKeeps(s: State, id: string)
    requires Consistent(s)
    ensures Consistent(Apply(s, Call(id)))
  {
    var t := Apply(s, Call(id));
    forall k | 0 <= k < |t.callers| ensures CallerOk(t.sessions, t.callers[k]) {
      if k < |s.callers| { assert CallerOk(s.sessions, s.callers[k]); }
    }
  }

  predicate Keeps(s: State, t: State)
  {
    forall id :: id in s.sessions ==> id in t.sessions && t.sessions[id] == s.sessions[id]
  }

  /** An entry of the map is replaced by nothing but a prebuilt runtime for the same session. */
  lemma EntriesStayIff(s: State, step: Step)
    requires MapOk(s) && Enabled(s, step)
    ensures Keeps(s, Apply(s, step)) <==> !(step.InsertPrebuilt? && step.id in s.sessions)
  {
    if step.InsertPrebuilt? && step.id in s.sessions { assert Apply(s, step).sessions[step.id] == s.next; }
  }

  // ---------------------------------------------------------------- once split, split for good

  /** A caller holds a runtime that the map has replaced by a later one. */
  predicate Outdated(s: State, c: Caller) {
    c.Done? && c.answer.Got? && c.id in s.sessions && c.answer.runtime < s.sessions[c.id] < s.next
      && ValidSessionId(c.id)
  }

  predicate Split(s: State, k: nat) { k < |s.callers| && Outdated(s, s.callers[k]) }

  lemma InsertSplits(s: State, id: string)
    requires Consistent(s) && ValidSessionId(id) && Held(s, id)
    ensures exists k :: Split(Apply(s, InsertPrebuilt(id)), k)
  {
    var k :| 0 <= k < |s.callers| && Holds(s.callers[k], id);
    assert CallerOk(s.sessions, s.callers[k]);
    assert Split(Apply(s, InsertPrebuilt(id)), k);
  }

  lemma SplitStays(s: State, step: Step, k: nat)
    requires Split(s, k) && Enabled(s, step)
    ensures Split(Apply(s, step), k)
  {
  }

  lemma {:induction false} SplitRun(s: State, steps: seq<Step>, t: State, k: nat)
    requires Split(s, k) && Run(s, steps) == Some(t)
    ensures Split(t, k)
    decreases |steps|
  {
    if steps != [] {
      SplitStays(s, steps[0], k);
      SplitRun(Apply(s, steps[0]), steps[1..], t, k);
    }
  }

  /** A run ends consistent exactly when it was orderly, and in a split otherwise. */
  lemma {:induction false} RunKeepsIff(s: State, steps: seq<Step>, t: State)
    requires Consistent(s) && Run(s, steps) == Some(t)
    ensures Consistent(t) <==> Orderly(s, steps)
    ensures !Orderly(s, steps) ==> exists k :: Split(t, k)
    decreases |steps|
  {
    if steps != [] {
      StepKeepsIff(s, steps[0]);
      var next := Apply(s, steps[0]);
      if Harmless(s, steps[0]) {
        RunKeepsIff(next, steps[1..], t);
      } else {
        InsertSplits(s, steps[0].id);
        var k: nat :| Split(next, k);
        SplitRun(next, steps[1..], t, k);
        assert !CallerOk(t.sessions, t.callers[k]);
      }
    }
  }

  // ---------------------------------------------------------------- one runtime per session

  const EMPTY: State := State(map[], 0, [])

  /** Two answered callers hold the same runtime exactly when they asked for the same session. */
  predicate OneEach(s: State) {
    forall j, k :: 0 <= j < |s.callers| && 0 <= k < |s.callers| ==> SameIff(s.callers[j], s.callers[k])
  }

  predicate SameIff(c: Caller, d: Caller) {
    c.Done? && d.Done? && c.answer.Got? && d.answer.Got? ==> (c.answer == d.answer <==> c.id == d.id)
  }

  lemma ConsistentMeansOneEach(s: State)
    requires Consistent(s)
    ensures OneEach(s)
  {
    forall j, k | 0 <= j < |s.callers| && 0 <= k < |s.callers| ensures SameIff(s.callers[j], s.callers[k]) {
      assert CallerOk(s.sessions, s.callers[j]) && CallerOk(s.sessions, s.callers[k]);
    }
  }

  predicate NoInserts(steps: seq<Step>) { forall i :: 0 <= i < |steps| ==> !steps[i].InsertPrebuilt? }

  lemma {:induction false} NoInsertsKeep(s: State, steps: seq<Step>, t: State)
    requires Consistent(s) && NoInserts(steps) && Run(s, steps) == Some(t)
    ensures Consistent(t)
    decreases |steps|
  {
    if steps != [] {
      assert !steps[0].InsertPrebuilt? && forall i :: 0 <= i < |steps[1..]| ==> steps[1..][i] == steps[i + 1];
      StepKeepsIff(s, steps[0]);
      NoInsertsKeep(Apply(s, steps[0]), steps[1..], t);
    }
  }

  /** The state that further calls lead to still gives one runtime to each session. */
  ghost predicate StaysOneEach(s: State) {
    forall more: seq<Step> :: NoInserts(more) && Run(s, more).Some? ==> OneEach(Run(s, more).value)
  }

  /** The theorem: however calls interleave, callers go on getting one runtime per session exactly when
      no prebuilt runtime was inserted over one that a caller held. */
  lemma OneRuntimePerSessionIff(steps: seq<Step>, t: State)
    requires Run(EMPTY, steps) == Some(t)
    ensures Orderly(EMPTY, steps) <==> StaysOneEach(t)
  {
    RunKeepsIff(EMPTY, steps, t);
    if Orderly(EMPTY, steps) {
      forall more: seq<Step> | NoInserts(more) && Run(t, more).Some? ensures OneEach(Run(t, more).value) {
        NoInsertsKeep(t, more, Run(t, more).value);
        ConsistentMeansOneEach(Run(t, more).value);
      }
    } else {
      var k: nat :| Split(t, k);
      NextCallerDiffers(t, k);
    }
  }

  /** After a split, the next caller for the session gets another runtime than the one before. */
  lemma NextCallerDiffers(s: State, k: nat)
    requires Split(s, k)
    ensures !StaysOneEach(s)
  {
    var id, n := s.callers[k].id, |s.callers|;
    var more := [Call(id), ReadLook(n)];
    var a := Apply(s, Call(id));
    var b := Apply(a, ReadLook(n));
    RunOne(b, []);
    RunOne(a, [ReadLook(n)]);
    RunOne(s, more);
    assert more[1..] == [ReadLook(n)];
    assert NoInserts(more) && Run(s, more) == Some(b);
    assert !SameIff(b.callers[k], b.callers[n]);
  }

  lemma RunOne(s: State, steps: seq<Step>)
    ensures steps == [] ==> Run(s, steps) == Some(s)
    ensures steps != [] && Enabled(s, steps[0]) ==> Run(s, steps) == Run(Apply(s, steps[0]), steps[1..])
  {
  }

  // ---------------------------------------------------------------- ids and answers

  /** One to sixty-four ASCII letters, digits, hyphens and underscores. */
  lemma ValidSessionIdIff(id: string)
    ensures ValidSessionId(id) <==>
            1 <= |id| <= 64 && forall c :: c in id ==>
              'a' <= c <= 'z' || 'A' <= c <= 'Z' || '0' <= c <= '9' || c == '-' || c == '_'
  {
    assert (forall i :: 0 <= i < |id| ==> IdChar(id[i])) <==> forall c :: c in id ==> IdChar(c) by {
      assert forall i :: 0 <= i < |id| ==> id[i] in id;
    }
    if forall i :: 0 <= i < |id| ==> IdChar(id[i]) { AsciiBytes(id); }
  }

  /** So a session's own file lies in the sessions directory itself. */
  lemma OwnPathStaysInside(cfg: Config, id: string)
    requires ValidSessionId(id)
    ensures exists name: string ::
              OwnPath(cfg, id) == cfg.sessionsDir + "/" + name && '/' !in name && '\\' !in name && name[0] != '.'
  {
    var name := id + ".session.json";
    assert OwnPath(cfg, id) == cfg.sessionsDir + "/" + name by {
      Nest(cfg.sessionsDir + "/", id, ".session.json");
    }
    NoSlash(".session.json");
    assert name[0] == id[0];
    forall c | c in name ensures c != '/' && c != '\\' { assert c in id || c in ".session.json"; }
  }

  lemma Nest(a: string, b: string, c: string)
    ensures a + b + c == a + (b + c)
  {
  }

  lemma NoSlash(s: string)
    requires s == ".session.json"
    ensures '/' !in s && '\\' !in s
  {
  }

  /** One caller with nobody in between: refused exactly for an invalid id, given the loaded runtime if there
      is one, and otherwise a new one, unless loading fails; then nothing changes. */
  lemma LoneCaller(s: State, id: string, loaded: bool)
    ensures var k := |s.callers|;
            var t := Apply(s, Call(id));
            if !ValidSessionId(id) then t.callers[k] == Done(id, Refused) && t.sessions == s.sessions
            else
              && Enabled(t, ReadLook(k))
              && var u := Apply(t, ReadLook(k));
                 if id in s.sessions then u.callers[k] == Done(id, Got(s.sessions[id])) && u.sessions == s.sessions
                 else
                   && Enabled(u, WriteLook(k, loaded))
                   && var w := Apply(u, WriteLook(k, loaded));
                      if loaded then w.sessions == s.sessions[id := s.next] && w.callers[k] == Done(id, Got(s.next))
                      else w.sessions == s.sessions && w.callers[k] == Done(id, LoadFailed)
  {
  }
}
