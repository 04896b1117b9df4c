/** At most one answer per replay key, whatever the clock, the disk and the scheduler do. */
module NullifierSafety {
  import opened Bytes
  import opened NullifierStore
  import opened NullifierProtocol

  /** The key is spent in every log a crash could leave behind. */
  ghost predicate DurablySpent(s: State, key: Key) {
    forall n :: s.flushed <= n <= |s.log| ==> IsSpent(Lookup(s.log[..n], key))
  }

  /** This request has turned its reservation into a spent mark. */
  predicate Won(p: Phase) { p.Confirming? || p.Paid? }

  ghost predicate Safe(s: State) {
    s.flushed <= |s.log| && WonAreSpent(s) && PaidAreDurable(s) && OneWinnerPerKey(s) && StaleAreUnspent(s)
  }

  ghost predicate WonAreSpent(s: State) {
    forall r :: r in s.reqs && Won(s.reqs[r].phase) ==> IsSpent(Lookup(s.log, s.reqs[r].key))
  }

  ghost predicate PaidAreDurable(s: State) {
    forall r :: r in s.reqs && s.reqs[r].phase.Paid? ==> DurablySpent(s, s.reqs[r].key)
  }

  ghost predicate OneWinnerPerKey(s: State) {
    forall q, r :: (q in s.reqs && r in s.reqs && s.reqs[q].key == s.reqs[r].key &&
                    Won(s.reqs[q].phase) && Won(s.reqs[r].phase)) ==> q == r
  }

  ghost predicate StaleAreUnspent(s: State) {
    forall r :: r in s.reqs && s.reqs[r].phase.Stale? ==> !IsSpent(Some(s.reqs[r].phase.found))
  }

  /** Every step leaves the log alone, cuts it back, or appends to a key that is not spent. */
  lemma StepLog(ttl: U64, s: State, step: Step)
    requires Safe(s) && Enabled(s, step)
    ensures var t := Apply(ttl, s, step);
            || t.log == s.log
            || (step.Crash? && t.log == s.log[..step.keep])
            || (exists w :: t.log == s.log + [w] && !IsSpent(Lookup(s.log, w.key)))
  {
    var t := Apply(ttl, s, step);
    match step {
      case CasAbsent(r) =>
        if t.log != s.log { assert t.log == s.log + [Write(s.reqs[r].key, Some(Pending(s.reqs[r].phase.ts)))]; }
      case CasStale(r) =>
        if t.log != s.log { assert t.log == s.log + [Write(s.reqs[r].key, Some(Pending(s.reqs[r].phase.ts)))]; }
      case Mark(r) =>
        DecodeEncode(PENDING, s.reqs[r].phase.ts);
        if t.log != s.log {
          assert t.log == s.log + [Write(s.reqs[r].key, Some(Encode(SPENT, s.reqs[r].phase.spentAt)))];
        }
      case Release(r) =>
        DecodeEncode(PENDING, s.reqs[r].phase.ts);
        if t.log != s.log { assert t.log == s.log + [Write(s.reqs[r].key, None)]; }
      case _ =>
    }
  }

  /** A spent mark that has reached the disk is never undone, not even across restarts. */
  lemma DurablySpentIsAbsorbing(ttl: U64, s: State, step: Step, key: Key)
    requires Safe(s) && Enabled(s, step) && DurablySpent(s, key)
    ensures DurablySpent(Apply(ttl, s, step), key)
  {
    var t := Apply(ttl, s, step);
    StepLog(ttl, s, step);
    forall n | t.flushed <= n <= |t.log|
      ensures IsSpent(Lookup(t.log[..n], key))
    {
      if n <= |s.log| {
        assert t.log[..n] == s.log[..n];
      } else {
        assert t.log[..n] == t.log;
        assert s.log[..|s.log|] == s.log;
        var w :| t.log == s.log + [w] && !IsSpent(Lookup(s.log, w.key));
        LookupAppend(s.log, w, key);
      }
    }
  }

  lemma SpentStays(ttl: U64, s: State, step: Step, key: Key)
    requires Safe(s) && Enabled(s, step) && !step.Crash? && IsSpent(Lookup(s.log, key))
    ensures IsSpent(Lookup(Apply(ttl, s, step).log, key))
  {
    StepLog(ttl, s, step);
    var t := Apply(ttl, s, step);
    if t.log != s.log {
      var w :| t.log == s.log + [w] && !IsSpent(Lookup(s.log, w.key));
      LookupAppend(s.log, w, key);
    }
  }

  /** Winning needs an unspent key, so nobody else can have won it. */
  lemma WinnerFoundItUnspent(ttl: U64, s: State, step: Step, r: nat)
    requires Safe(s) && Enabled(s, step)
    requires r in Apply(ttl, s, step).reqs && Won(Apply(ttl, s, step).reqs[r].phase)
    requires !(r in s.reqs && Won(s.reqs[r].phase))
    ensures step == Mark(r)
    ensures !IsSpent(Lookup(s.log, s.reqs[r].key))
    ensures IsSpent(Lookup(Apply(ttl, s, step).log, s.reqs[r].key))
  {
    DecodeEncode(PENDING, s.reqs[r].phase.ts);
    DecodeEncode(SPENT, s.reqs[r].phase.spentAt);
    LookupAppend(s.log, Write(s.reqs[r].key, Some(Encode(SPENT, s.reqs[r].phase.spentAt))), s.reqs[r].key);
  }

  lemma OthersKeepPhase(ttl: U64, s: State, step: Step, q: nat)
    requires Enabled(s, step) && q in Apply(ttl, s, step).reqs
    ensures q in s.reqs ==> Apply(ttl, s, step).reqs[q].key == s.reqs[q].key
    ensures q !in s.reqs ==> Apply(ttl, s, step).reqs[q].phase.Arrived?
  {
  }

  lemma SafePreserved(ttl: U64, s: State, step: Step)
    requires Safe(s) && Enabled(s, step)
    ensures Safe(Apply(ttl, s, step))
  {
    var t := Apply(ttl, s, step);
    forall r | r in t.reqs && Won(t.reqs[r].phase) ensures IsSpent(Lookup(t.log, t.reqs[r].key)) {
      WonAfter(ttl, s, step, r);
    }
    forall r | r in t.reqs && t.reqs[r].phase.Paid? ensures DurablySpent(t, t.reqs[r].key) {
      PaidAfter(ttl, s, step, r);
    }
    forall q, r | q in t.reqs && r in t.reqs && t.reqs[q].key == t.reqs[r].key &&
                  Won(t.reqs[q].phase) && Won(t.reqs[r].phase)
      ensures q == r
    {
      OneWinnerAfter(ttl, s, step, q, r);
    }
    StaleAfter(ttl, s, step);
    StepLog(ttl, s, step);
  }

  lemma StaleAfter(ttl: U64, s: State, step: Step)
    requires Safe(s) && Enabled(s, step)
    ensures StaleAreUnspent(Apply(ttl, s, step))
  {
  }

  lemma WonAfter(ttl: U64, s: State, step: Step, r: nat)
    requires Safe(s) && Enabled(s, step)
    requires r in Apply(ttl, s, step).reqs && Won(Apply(ttl, s, step).reqs[r].phase)
    ensures IsSpent(Lookup(Apply(ttl, s, step).log, Apply(ttl, s, step).reqs[r].key))
  {
    var t := Apply(ttl, s, step);
    OthersKeepPhase(ttl, s, step, r);
    if step.Crash? {
      DurablySpentIsAbsorbing(ttl, s, step, s.reqs[r].key);
      assert t.log[..|t.log|] == t.log;
    } else if r in s.reqs && Won(s.reqs[r].phase) {
      SpentStays(ttl, s, step, s.reqs[r].key);
    } else {
      WinnerFoundItUnspent(ttl, s, step, r);
    }
  }

  lemma OneWinnerAfter(ttl: U64, s: State, step: Step, q: nat, r: nat)
    requires Safe(s) && Enabled(s, step)
    requires q in Apply(ttl, s, step).reqs && r in Apply(ttl, s, step).reqs
    requires Apply(ttl, s, step).reqs[q].key == Apply(ttl, s, step).reqs[r].key
    requires Won(Apply(ttl, s, step).reqs[q].phase) && Won(Apply(ttl, s, step).reqs[r].phase)
    ensures q == r
  {
    OthersKeepPhase(ttl, s, step, q);
    OthersKeepPhase(ttl, s, step, r);
    if !Won(s.reqs[q].phase) {
      WinnerFoundItUnspent(ttl, s, step, q);
    }
    if !Won(s.reqs[r].phase) {
      WinnerFoundItUnspent(ttl, s, step, r);
    }
  }

  lemma PaidAfter(ttl: U64, s: State, step: Step, r: nat)
    requires Safe(s) && Enabled(s, step)
    requires r in Apply(ttl, s, step).reqs && Apply(ttl, s, step).reqs[r].phase.Paid?
    ensures DurablySpent(Apply(ttl, s, step), Apply(ttl, s, step).reqs[r].key)
  {
    var t := Apply(ttl, s, step);
    OthersKeepPhase(ttl, s, step, r);
    if s.reqs[r].phase.Paid? {
      DurablySpentIsAbsorbing(ttl, s, step, s.reqs[r].key);
    } else {
      assert step == FlushSpent(r, true);
      assert t.log[..|t.log|] == s.log;
    }
  }

  lemma {:induction false} SafeRun(ttl: U64, s: State, steps: seq<Step>, t: State)
    requires Safe(s) && Run(ttl, s, steps, t)
    ensures Safe(t)
    ensures forall key :: DurablySpent(s, key) ==> DurablySpent(t, key)
    decreases |steps|
  {
    if steps != [] {
      SafePreserved(ttl, s, steps[0]);
      forall key | DurablySpent(s, key) ensures DurablySpent(Apply(ttl, s, steps[0]), key) {
        DurablySpentIsAbsorbing(ttl, s, steps[0], key);
      }
      SafeRun(ttl, Apply(ttl, s, steps[0]), steps[1..], t);
    }
  }

  /** The theorem: no run, under any clock, with failing flushes, abandoned requests and crashes,
      answers two requests with the same replay key. */
  lemma AtMostOnePaid(ttl: U64, s: State, steps: seq<Step>, t: State, q: nat, r: nat)
    requires Initial(s) && Run(ttl, s, steps, t)
    requires q in t.reqs && r in t.reqs && t.reqs[q].key == t.reqs[r].key
    requires t.reqs[q].phase.Paid? && t.reqs[r].phase.Paid?
    ensures q == r
  {
    SafeRun(ttl, s, steps, t);
  }

  /** An answered request's key stays spent on disk, and reserving it is refused, for ever after. */
  lemma PaidKeyRefusedForever(ttl: U64, s: State, before: seq<Step>, mid: State, after: seq<Step>, t: State, r: nat,
                              mine: seq<Byte>, now: U64, io: Io)
    requires Initial(s) && Run(ttl, s, before, mid) && Run(ttl, mid, after, t)
    requires r in mid.reqs && mid.reqs[r].phase.Paid?
    ensures DurablySpent(t, mid.reqs[r].key)
    ensures var (d, out) := Reserved(Disk(t.log, t.flushed), mid.reqs[r].key, mine, ttl, now, io);
            d == Disk(t.log, t.flushed) && out == if io.first && io.get then AlreadyUsed else DbError
  {
    SafeRun(ttl, s, before, mid);
    SafeRun(ttl, mid, after, t);
    assert t.log[..|t.log|] == t.log;
  }
}
