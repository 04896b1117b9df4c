/** The in-place operations are runs of the protocol: what holds of every run holds of them. */
module NullifierRefinement {
  import opened Bytes
  import opened NullifierStore
  import opened NullifierProtocol

  lemma RunSnoc(ttl: U64, s: State, steps: seq<Step>, u: State, step: Step)
    requires Run(ttl, s, steps, u) && Enabled(u, step)
    ensures Run(ttl, s, steps + [step], Apply(ttl, u, step))
    decreases |steps|
  {
    if steps == [] {
      assert steps + [step] == [step];
      assert [step][1..] == [];
    } else {
      RunSnoc(ttl, Apply(ttl, s, steps[0]), steps[1..], u, step);
      assert (steps + [step])[1..] == steps[1..] + [step];
    }
  }

  function OnDisk(s: State): Disk { Disk(s.log, s.flushed) }

  lemma Then(ttl: U64, s: State, done: seq<Step>, u: State, step: Step) returns (steps: seq<Step>, t: State)
    requires Run(ttl, s, done, u) && Enabled(u, step)
    ensures t == Apply(ttl, u, step) && Run(ttl, s, steps, t) && steps == done + [step]
  {
    steps, t := done + [step], Apply(ttl, u, step);
    RunSnoc(ttl, s, done, u, step);
  }

  /** Only request `r` has moved, and it is now in `phase`. */
  predicate Moved(s: State, t: State, r: nat, phase: Phase)
    requires r in s.reqs
  {
    t.clock == s.clock && t.reqs == s.reqs[r := Request(s.reqs[r].key, phase)]
  }

  lemma ReserveIsRun(ttl: U64, s: State, r: nat, io: Io) returns (steps: seq<Step>, t: State)
    requires r in s.reqs && s.reqs[r].phase.Ready?
    ensures Run(ttl, s, steps, t)
    ensures OnDisk(t) == Reserved(OnDisk(s), s.reqs[r].key, Pending(s.reqs[r].phase.ts), ttl, s.clock, io).0
    ensures var (_, out) := Reserved(OnDisk(s), s.reqs[r].key, Pending(s.reqs[r].phase.ts), ttl, s.clock, io);
            Moved(s, t, r, if out == Done then Calling(s.reqs[r].phase.ts) else Closed)
            && (Abandon(r) in steps ==> out == DbError)
  {
    if !io.first {
      steps, t := Then(ttl, s, [], s, Abandon(r));
      return;
    }
    steps, t := Then(ttl, s, [], s, CasAbsent(r));
    if t.reqs[r].phase.Contended? {
      steps, t := TakeOverIsRun(ttl, s, steps, t, r, io);
    } else {
      steps, t := Then(ttl, s, steps, t, FlushReserve(r, io.flush));
    }
  }

  /** The slow path, from a failed first swap on. */
  lemma TakeOverIsRun(ttl: U64, s: State, done: seq<Step>, u: State, r: nat, io: Io)
    returns (steps: seq<Step>, t: State)
    requires r in u.reqs && u.reqs[r].phase.Contended? && Run(ttl, s, done, u)
    requires io.first && Lookup(u.log, u.reqs[r].key).Some?
    ensures Run(ttl, s, steps, t)
    ensures OnDisk(t) == Reserved(OnDisk(u), u.reqs[r].key, Pending(u.reqs[r].phase.ts), ttl, u.clock, io).0
    ensures var (_, out) := Reserved(OnDisk(u), u.reqs[r].key, Pending(u.reqs[r].phase.ts), ttl, u.clock, io);
            Moved(u, t, r, if out == Done then Calling(u.reqs[r].phase.ts) else Closed)
            && (Abandon(r) in steps ==> Abandon(r) in done || out == DbError)
  {
    if !io.get {
      steps, t := Then(ttl, s, done, u, Abandon(r));
      return;
    }
    steps, t := Then(ttl, s, done, u, Read(r));
    steps, t := Then(ttl, s, steps, t, CheckClock(r));
    if t.reqs[r].phase.Stale? { steps, t := SwapStaleIsRun(ttl, s, steps, t, r, io); }
  }

  /** From a value found and judged stale on, with nobody in between. */
  lemma SwapStaleIsRun(ttl: U64, s: State, done: seq<Step>, u: State, r: nat, io: Io)
    returns (steps: seq<Step>, t: State)
    requires r in u.reqs && u.reqs[r].phase.Stale? && Run(ttl, s, done, u)
    requires Lookup(u.log, u.reqs[r].key) == Some(u.reqs[r].phase.found)
    ensures Run(ttl, s, steps, t)
    ensures var mine := Write(u.reqs[r].key, Some(Pending(u.reqs[r].phase.ts)));
            OnDisk(t) == if io.second then Sync(Disk(u.log + [mine], u.flushed), io.flush) else OnDisk(u)
    ensures Moved(u, t, r, if io.second && io.flush then Calling(u.reqs[r].phase.ts) else Closed)
    ensures Abandon(r) in steps ==> Abandon(r) in done || !io.second
  {
    if !io.second {
      steps, t := Then(ttl, s, done, u, Abandon(r));
      return;
    }
    steps, t := Then(ttl, s, done, u, CasStale(r));
    steps, t := Then(ttl, s, steps, t, FlushReserve(r, io.flush));
  }

  lemma MarkIsRun(ttl: U64, s: State, r: nat, io: Io) returns (steps: seq<Step>, t: State)
    requires r in s.reqs && s.reqs[r].phase.Marking?
    ensures Run(ttl, s, steps, t)
    ensures var p := s.reqs[r].phase;
            var (d, out) := Marked(OnDisk(s), s.reqs[r].key, Pending(p.ts), Encode(SPENT, p.spentAt), io);
            OnDisk(t) == d && Moved(s, t, r, if out == Done then Paid else Closed)
            && (Abandon(r) in steps ==> !io.first)
  {
    if !io.first {
      steps, t := Then(ttl, s, [], s, Abandon(r));
      return;
    }
    steps, t := Then(ttl, s, [], s, Mark(r));
    if t.reqs[r].phase.Confirming? {
      steps, t := Then(ttl, s, steps, t, FlushSpent(r, io.flush));
    }
  }

  lemma ReleaseIsRun(ttl: U64, s: State, r: nat, io: Io) returns (steps: seq<Step>, t: State)
    requires r in s.reqs && s.reqs[r].phase.Rejected?
    ensures Run(ttl, s, steps, t)
    ensures OnDisk(t) == Released(OnDisk(s), s.reqs[r].key, Pending(s.reqs[r].phase.ts), io).0
    ensures Moved(s, t, r, Closed) && (Abandon(r) in steps ==> !io.first)
  {
    if !io.first {
      steps, t := Then(ttl, s, [], s, Abandon(r));
      return;
    }
    steps, t := Then(ttl, s, [], s, Release(r));
    if t.reqs[r].phase.Releasing? {
      steps, t := Then(ttl, s, steps, t, FlushRelease(r, io.flush));
    }
  }

  // ---------------------------------------------------------------- what a request gets when nothing goes wrong

  /** Nothing but request `r`, from its arrival to the provider's reply. */
  function Asking(r: nat, key: Key): seq<Step> {
    [Arrive(r, key), Stamp(r), CasAbsent(r), FlushReserve(r, true)]
  }

  lemma {:induction false} RunConcat(ttl: U64, s: State, a: seq<Step>, u: State, b: seq<Step>, t: State)
    requires Run(ttl, s, a, u) && Run(ttl, u, b, t)
    ensures Run(ttl, s, a + b, t)
    decreases |a|
  {
    if a == [] {
      assert a + b == b;
    } else {
      RunConcat(ttl, Apply(ttl, s, a[0]), a[1..], u, b, t);
      assert (a + b)[1..] == a[1..] + b;
    }
  }

  /** A new request for a free key gets as far as the provider. */
  lemma FreeKeyReachesProvider(ttl: U64, s: State, r: nat, key: Key) returns (t: State)
    requires r !in s.reqs && Lookup(s.log, key).None?
    ensures Run(ttl, s, Asking(r, key), t) && t.clock == s.clock
    ensures r in t.reqs && t.reqs[r] == Request(key, Calling(s.clock))
    ensures Wrote(OnDisk(s), OnDisk(t), key, Some(Pending(s.clock)))
  {
    var a := Apply(ttl, s, Arrive(r, key));
    var b := Apply(ttl, a, Stamp(r));
    var c := Apply(ttl, b, CasAbsent(r));
    t := Apply(ttl, c, FlushReserve(r, true));
    WriteWrote(OnDisk(s), key, Some(Pending(s.clock)), true);
    assert c.log == s.log + [Write(key, Some(Pending(s.clock)))];
    OneStep(ttl, c, FlushReserve(r, true));
    MoreSteps(ttl, b, CasAbsent(r), [FlushReserve(r, true)], t);
    MoreSteps(ttl, a, Stamp(r), [CasAbsent(r), FlushReserve(r, true)], t);
    MoreSteps(ttl, s, Arrive(r, key), [Stamp(r), CasAbsent(r), FlushReserve(r, true)], t);
  }

  lemma OneStep(ttl: U64, s: State, step: Step)
    requires Enabled(s, step)
    ensures Run(ttl, s, [step], Apply(ttl, s, step))
  {
    assert [step][1..] == [];
  }

  lemma MoreSteps(ttl: U64, s: State, step: Step, rest: seq<Step>, t: State)
    requires Enabled(s, step) && Run(ttl, Apply(ttl, s, step), rest, t)
    ensures Run(ttl, s, [step] + rest, t)
  {
    assert ([step] + rest)[1..] == rest;
  }

  /** With a free key and nobody else about, a request whose provider answers is paid and its key is
      spent, durably; one whose provider fails leaves the key free for the next. */
  lemma LoneRequest(ttl: U64, s: State, r: nat, key: Key, answers: bool) returns (steps: seq<Step>, t: State)
    requires r !in s.reqs && Lookup(s.log, key).None?
    ensures Run(ttl, s, steps, t) && (forall i :: 0 <= i < |steps| ==> !steps[i].Abandon?)
    ensures r in t.reqs && t.reqs[r].phase == if answers then Paid else Closed
    ensures Wrote(OnDisk(s), OnDisk(t), key, if answers then Some(Encode(SPENT, s.clock)) else None)
  {
    var u := FreeKeyReachesProvider(ttl, s, r, key);
    var rest: seq<Step>;
    if answers {
      rest, t := AnswerIsPaid(ttl, u, r, key, s.clock);
    } else {
      rest, t := FailureFrees(ttl, u, r, key, s.clock);
    }
    steps := Asking(r, key) + rest;
    RunConcat(ttl, s, Asking(r, key), u, rest, t);
  }

  lemma AnswerIsPaid(ttl: U64, s: State, r: nat, key: Key, ts: U64) returns (steps: seq<Step>, t: State)
    requires r in s.reqs && s.reqs[r] == Request(key, Calling(ts)) && Lookup(s.log, key) == Some(Pending(ts))
    ensures Run(ttl, s, steps, t) && (forall i :: 0 <= i < |steps| ==> !steps[i].Abandon?)
    ensures r in t.reqs && t.reqs[r].phase == Paid
    ensures Wrote(OnDisk(s), OnDisk(t), key, Some(Encode(SPENT, s.clock)))
  {
    var a := Apply(ttl, s, Provider(r, true));
    var b := Apply(ttl, a, StampSpent(r));
    var c := Apply(ttl, b, Mark(r));
    t := Apply(ttl, c, FlushSpent(r, true));
    WriteWrote(OnDisk(s), key, Some(Encode(SPENT, s.clock)), true);
    assert c.log == s.log + [Write(key, Some(Encode(SPENT, s.clock)))];
    OneStep(ttl, c, FlushSpent(r, true));
    MoreSteps(ttl, b, Mark(r), [FlushSpent(r, true)], t);
    MoreSteps(ttl, a, StampSpent(r), [Mark(r), FlushSpent(r, true)], t);
    MoreSteps(ttl, s, Provider(r, true), [StampSpent(r), Mark(r), FlushSpent(r, true)], t);
    steps := [Provider(r, true)] + [StampSpent(r), Mark(r), FlushSpent(r, true)];
  }

  lemma FailureFrees(ttl: U64, s: State, r: nat, key: Key, ts: U64) returns (steps: seq<Step>, t: State)
    requires r in s.reqs && s.reqs[r] == Request(key, Calling(ts)) && Lookup(s.log, key) == Some(Pending(ts))
    ensures Run(ttl, s, steps, t) && (forall i :: 0 <= i < |steps| ==> !steps[i].Abandon?)
    ensures r in t.reqs && t.reqs[r].phase == Closed
    ensures Wrote(OnDisk(s), OnDisk(t), key, None)
  {
    var a := Apply(ttl, s, Provider(r, false));
    var b := Apply(ttl, a, Release(r));
    t := Apply(ttl, b, FlushRelease(r, true));
    WriteWrote(OnDisk(s), key, None, true);
    assert b.log == s.log + [Write(key, None)];
    OneStep(ttl, b, FlushRelease(r, true));
    MoreSteps(ttl, a, Release(r), [FlushRelease(r, true)], t);
    MoreSteps(ttl, s, Provider(r, false), [Release(r), FlushRelease(r, true)], t);
    steps := [Provider(r, false)] + [Release(r), FlushRelease(r, true)];
  }
}
