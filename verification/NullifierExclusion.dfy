/** With a clock that never goes back, a reservation excludes everybody else until it expires. */
module NullifierExclusion {
  import opened Bytes
  import opened NullifierStore
  import opened NullifierProtocol

  /** The request owns a reservation it has neither spent nor released yet. */
  predicate Holder(p: Phase) {
    p.Reserving? || p.Calling? || p.Answered? || p.Marking? || p.Rejected?
  }

  predicate HasTs(p: Phase) {
    !p.Arrived? && !p.Paid? && !p.Closed?
  }

  predicate Live(ttl: U64, s: State, r: nat) {
    r in s.reqs && Holder(s.reqs[r].phase) && s.clock - s.reqs[r].phase.ts <= ttl
  }

  /** Clock readings lie in the past, and what was judged stale still is. */
  ghost predicate Timely(ttl: U64, s: State) {
    && (forall r :: r in s.reqs && HasTs(s.reqs[r].phase) ==> s.reqs[r].phase.ts <= s.clock)
    && (forall r :: r in s.reqs && s.reqs[r].phase.Stale? ==> IsStale(s.reqs[r].phase.found, s.clock, ttl))
  }

  ghost predicate LiveOwnTheKey(ttl: U64, s: State) {
    forall r :: Live(ttl, s, r) ==> Lookup(s.log, s.reqs[r].key) == Some(Pending(s.reqs[r].phase.ts))
  }

  ghost predicate OneLivePerKey(ttl: U64, s: State) {
    forall q, r :: Live(ttl, s, q) && Live(ttl, s, r) && s.reqs[q].key == s.reqs[r].key ==> q == r
  }

  ghost predicate Exclusive(ttl: U64, s: State) {
    s.flushed <= |s.log| && Timely(ttl, s) && LiveOwnTheKey(ttl, s) && OneLivePerKey(ttl, s)
  }

  lemma FreshIsNotStale(ts: U64, now: U64, ttl: U64)
    requires ts <= now
    ensures IsStale(Pending(ts), now, ttl) <==> now - ts > ttl
  {
    DecodeEncode(PENDING, ts);
  }

  /** Taking a key needs it free or stale, so no live reservation can stand under it. */
  lemma NewHolderFoundNoLive(ttl: U64, s: State, step: Step, r: nat, q: nat)
    requires Exclusive(ttl, s) && Enabled(s, step)
    requires r in Apply(ttl, s, step).reqs && Holder(Apply(ttl, s, step).reqs[r].phase)
    requires !(r in s.reqs && Holder(s.reqs[r].phase))
    ensures r in s.reqs && (step == CasAbsent(r) || step == CasStale(r))
    ensures var t := Apply(ttl, s, step);
            t.clock == s.clock && t.log == s.log + [Write(s.reqs[r].key, Some(Pending(t.reqs[r].phase.ts)))]
    ensures q in s.reqs && s.reqs[q].key == s.reqs[r].key ==> !Live(ttl, s, q)
  {
    if q in s.reqs && s.reqs[q].key == s.reqs[r].key && Live(ttl, s, q) {
      FreshIsNotStale(s.reqs[q].phase.ts, s.clock, ttl);
    }
  }

  /** While a reservation is live nobody but its owner can write under its key. */
  lemma OnlyOwnerWrites(ttl: U64, s: State, step: Step, r: nat)
    requires Exclusive(ttl, s) && Enabled(s, step) && Steady(s, step) && Live(ttl, s, r)
    requires !step.Crash? && step != Mark(r) && step != Release(r)
    ensures Lookup(Apply(ttl, s, step).log, s.reqs[r].key) == Lookup(s.log, s.reqs[r].key)
  {
    var ts, key := s.reqs[r].phase.ts, s.reqs[r].key;
    FreshIsNotStale(ts, s.clock, ttl);
    match step {
      case CasAbsent(q) => LookupAppend(s.log, Write(s.reqs[q].key, Some(Pending(s.reqs[q].phase.ts))), key);
      case CasStale(q) => LookupAppend(s.log, Write(s.reqs[q].key, Some(Pending(s.reqs[q].phase.ts))), key);
      case Mark(q) =>
        LookupAppend(s.log, Write(s.reqs[q].key, Some(Encode(SPENT, s.reqs[q].phase.spentAt))), key);
        if s.reqs[q].key == key { OtherOwnerDiffers(ttl, s, r, q); }
      case Release(q) =>
        LookupAppend(s.log, Write(s.reqs[q].key, None), key);
        if s.reqs[q].key == key { OtherOwnerDiffers(ttl, s, r, q); }
      case _ =>
    }
  }

  /** Even with equal clock readings: the same pending value would be live too. */
  lemma OtherOwnerDiffers(ttl: U64, s: State, r: nat, q: nat)
    requires Exclusive(ttl, s) && Live(ttl, s, r) && q in s.reqs && q != r && Holder(s.reqs[q].phase)
    requires s.reqs[q].key == s.reqs[r].key
    ensures Pending(s.reqs[q].phase.ts) != Lookup(s.log, s.reqs[r].key).value
  {
    if Pending(s.reqs[q].phase.ts) == Pending(s.reqs[r].phase.ts) {
      PendingInjective(s.reqs[q].phase.ts, s.reqs[r].phase.ts);
    }
  }

  lemma HolderBefore(ttl: U64, s: State, step: Step, r: nat)
    requires Exclusive(ttl, s) && Enabled(s, step) && Steady(s, step)
    requires Live(ttl, Apply(ttl, s, step), r)
    requires r in s.reqs && Holder(s.reqs[r].phase)
    ensures Live(ttl, s, r) && !step.Crash? && step != Mark(r) && step != Release(r)
    ensures var t := Apply(ttl, s, step);
            t.reqs[r].key == s.reqs[r].key && t.reqs[r].phase.ts == s.reqs[r].phase.ts
  {
  }

  lemma TimelyAfter(ttl: U64, s: State, step: Step)
    requires Exclusive(ttl, s) && Enabled(s, step) && Steady(s, step)
    ensures Timely(ttl, Apply(ttl, s, step))
  {
    var t := Apply(ttl, s, step);
    forall r | r in t.reqs && HasTs(t.reqs[r].phase) ensures t.reqs[r].phase.ts <= t.clock {
      StampIsPast(ttl, s, step, r);
    }
    forall r | r in t.reqs && t.reqs[r].phase.Stale? ensures IsStale(t.reqs[r].phase.found, t.clock, ttl) {
      StaleStays(ttl, s, step, r);
    }
  }

  lemma StampIsPast(ttl: U64, s: State, step: Step, r: nat)
    requires Timely(ttl, s) && Enabled(s, step) && Steady(s, step)
    requires r in Apply(ttl, s, step).reqs && HasTs(Apply(ttl, s, step).reqs[r].phase)
    ensures Apply(ttl, s, step).reqs[r].phase.ts <= Apply(ttl, s, step).clock
  {
  }

  lemma StaleStays(ttl: U64, s: State, step: Step, r: nat)
    requires Timely(ttl, s) && Enabled(s, step) && Steady(s, step)
    requires r in Apply(ttl, s, step).reqs && Apply(ttl, s, step).reqs[r].phase.Stale?
    ensures IsStale(Apply(ttl, s, step).reqs[r].phase.found, Apply(ttl, s, step).clock, ttl)
  {
  }

  lemma ExclusivePreserved(ttl: U64, s: State, step: Step)
    requires Exclusive(ttl, s) && Enabled(s, step) && Steady(s, step)
    ensures Exclusive(ttl, Apply(ttl, s, step))
  {
    var t := Apply(ttl, s, step);
    TimelyAfter(ttl, s, step);
    forall r | Live(ttl, t, r) ensures Lookup(t.log, t.reqs[r].key) == Some(Pending(t.reqs[r].phase.ts)) {
      LiveAfter(ttl, s, step, r);
    }
    forall q, r | Live(ttl, t, q) && Live(ttl, t, r) && t.reqs[q].key == t.reqs[r].key ensures q == r {
      OneLiveAfter(ttl, s, step, q, r);
    }
    assert t.flushed <= |t.log| by { FlushedInLog(ttl, s, step); }
  }

  lemma FlushedInLog(ttl: U64, s: State, step: Step)
    requires s.flushed <= |s.log| && Enabled(s, step)
    ensures Apply(ttl, s, step).flushed <= |Apply(ttl, s, step).log|
  {
  }

  lemma LiveAfter(ttl: U64, s: State, step: Step, r: nat)
    requires Exclusive(ttl, s) && Enabled(s, step) && Steady(s, step) && Live(ttl, Apply(ttl, s, step), r)
    ensures var t := Apply(ttl, s, step);
            Lookup(t.log, t.reqs[r].key) == Some(Pending(t.reqs[r].phase.ts))
  {
    var t := Apply(ttl, s, step);
    if r in s.reqs && Holder(s.reqs[r].phase) {
      HolderBefore(ttl, s, step, r);
      OnlyOwnerWrites(ttl, s, step, r);
    } else {
      NewHolderFoundNoLive(ttl, s, step, r, r);
      LookupAppend(s.log, Write(s.reqs[r].key, Some(Pending(t.reqs[r].phase.ts))), s.reqs[r].key);
    }
  }

  lemma OneLiveAfter(ttl: U64, s: State, step: Step, q: nat, r: nat)
    requires Exclusive(ttl, s) && Enabled(s, step) && Steady(s, step)
    requires Live(ttl, Apply(ttl, s, step), q) && Live(ttl, Apply(ttl, s, step), r)
    requires Apply(ttl, s, step).reqs[q].key == Apply(ttl, s, step).reqs[r].key
    ensures q == r
  {
    var qOld, rOld := q in s.reqs && Holder(s.reqs[q].phase), r in s.reqs && Holder(s.reqs[r].phase);
    if qOld { HolderBefore(ttl, s, step, q); }
    if rOld { HolderBefore(ttl, s, step, r); }
    if !qOld { NewHolderFoundNoLive(ttl, s, step, q, r); }
    if !rOld { NewHolderFoundNoLive(ttl, s, step, r, q); }
  }

  lemma {:induction false} ExclusiveRun(ttl: U64, s: State, steps: seq<Step>, t: State)
    requires Exclusive(ttl, s) && SteadyRun(ttl, s, steps, t)
    ensures Exclusive(ttl, t) && s.clock <= t.clock
    decreases |steps|
  {
    if steps != [] {
      ExclusivePreserved(ttl, s, steps[0]);
      ExclusiveRun(ttl, Apply(ttl, s, steps[0]), steps[1..], t);
    }
  }

  /** In every reachable state each key has at most one unexpired reservation in flight, and the
      database holds exactly that request's pending value. */
  lemma AtMostOneLiveReservation(ttl: U64, s: State, steps: seq<Step>, t: State, r: nat)
    requires Initial(s) && SteadyRun(ttl, s, steps, t) && Live(ttl, t, r)
    ensures Lookup(t.log, t.reqs[r].key) == Some(Pending(t.reqs[r].phase.ts))
    ensures forall q :: Live(ttl, t, q) && t.reqs[q].key == t.reqs[r].key ==> q == r
  {
    ExclusiveRun(ttl, s, steps, t);
  }

  /** A request that comes back from the provider within the time to live can always mark its key. */
  lemma TimelyOwnerMarks(ttl: U64, s: State, steps: seq<Step>, t: State, r: nat)
    requires Initial(s) && SteadyRun(ttl, s, steps, t) && Live(ttl, t, r) && t.reqs[r].phase.Marking?
    ensures Apply(ttl, t, Mark(r)).reqs[r].phase == Confirming(t.reqs[r].phase.ts)
  {
    AtMostOneLiveReservation(ttl, s, steps, t, r);
  }

  // ---------------------------------------------------------------- what a flushed reservation buys

  predicate Reserved?(p: Phase, ts: U64) {
    || p == Calling(ts) || p == Answered(ts) || (p.Marking? && p.ts == ts) || p == Rejected(ts)
    || p == Confirming(ts) || p == Paid || p == Closed
  }

  ghost predicate Blocked(s: State, key: Key, ts: U64) {
    forall n :: s.flushed <= n <= |s.log| ==>
      Lookup(s.log[..n], key) == Some(Pending(ts)) || IsSpent(Lookup(s.log[..n], key))
  }

  /** Request `r` reserved `key` at `ts`, on disk, and has not released it. */
  ghost predicate Promised(s: State, r: nat, key: Key, ts: U64) {
    && ts <= s.clock
    && r in s.reqs && s.reqs[r].key == key && Reserved?(s.reqs[r].phase, ts)
    && Blocked(s, key, ts)
    && (forall q :: q in s.reqs && q != r && s.reqs[q].key == key && Holder(s.reqs[q].phase) ==>
       s.reqs[q].phase.ts != ts)
  }

  lemma PromiseStarts(ttl: U64, s: State, r: nat)
    requires Exclusive(ttl, s) && Enabled(s, FlushReserve(r, true)) && Live(ttl, s, r)
    ensures Promised(Apply(ttl, s, FlushReserve(r, true)), r, s.reqs[r].key, s.reqs[r].phase.ts)
  {
    assert s.log[..|s.log|] == s.log;
    forall q | q in s.reqs && q != r && s.reqs[q].key == s.reqs[r].key && Holder(s.reqs[q].phase)
      ensures s.reqs[q].phase.ts != s.reqs[r].phase.ts
    {
      OtherOwnerDiffers(ttl, s, r, q);
    }
  }

  /** Nobody but the owner writes under a promised key, and the owner only marks it spent. */
  lemma PromisedKeyWrites(ttl: U64, s: State, step: Step, r: nat, key: Key, ts: U64)
    requires s.flushed <= |s.log| && Timely(ttl, s) && Enabled(s, step) && Promised(s, r, key, ts)
    requires !step.Crash? && step != Release(r) && s.clock - ts <= ttl
    ensures var t := Apply(ttl, s, step);
            Lookup(t.log, key) == Lookup(s.log, key) || IsSpent(Lookup(t.log, key))
  {
    assert s.log[..|s.log|] == s.log;
    FreshIsNotStale(ts, s.clock, ttl);
    DecodeEncode(PENDING, ts);
    match step {
      case CasAbsent(q) => LookupAppend(s.log, Write(s.reqs[q].key, Some(Pending(s.reqs[q].phase.ts))), key);
      case CasStale(q) => LookupAppend(s.log, Write(s.reqs[q].key, Some(Pending(s.reqs[q].phase.ts))), key);
      case Mark(q) =>
        LookupAppend(s.log, Write(s.reqs[q].key, Some(Encode(SPENT, s.reqs[q].phase.spentAt))), key);
        DecodeEncode(SPENT, s.reqs[q].phase.spentAt);
      case Release(q) =>
        LookupAppend(s.log, Write(s.reqs[q].key, None), key);
        DecodeEncode(PENDING, s.reqs[q].phase.ts);
        if Pending(s.reqs[q].phase.ts) == Pending(ts) { PendingInjective(s.reqs[q].phase.ts, ts); }
      case _ =>
    }
  }

  /** Nobody takes a promised key: it is neither free nor stale. */
  lemma NobodyTakesOver(ttl: U64, s: State, step: Step, r: nat, key: Key, ts: U64, q: nat)
    requires s.flushed <= |s.log| && Timely(ttl, s) && Enabled(s, step) && Promised(s, r, key, ts)
    requires s.clock - ts <= ttl
    requires q in Apply(ttl, s, step).reqs && q != r && Apply(ttl, s, step).reqs[q].key == key
    requires Holder(Apply(ttl, s, step).reqs[q].phase)
    ensures HeldAlike(s, Apply(ttl, s, step), q)
  {
    assert s.log[..|s.log|] == s.log;
    FreshIsNotStale(ts, s.clock, ttl);
  }

  /** Request `q` held a reservation in `s` already, made at the same time as the one it has in `t`. */
  predicate HeldAlike(s: State, t: State, q: nat)
    requires q in t.reqs && Holder(t.reqs[q].phase)
  {
    q in s.reqs && s.reqs[q].key == t.reqs[q].key && Holder(s.reqs[q].phase) && s.reqs[q].phase.ts == t.reqs[q].phase.ts
  }

  lemma StillBlocked(ttl: U64, s: State, step: Step, r: nat, key: Key, ts: U64)
    requires Exclusive(ttl, s) && Enabled(s, step) && Promised(s, r, key, ts)
    requires step != Release(r) && s.clock - ts <= ttl
    ensures Blocked(Apply(ttl, s, step), key, ts)
  {
    var t := Apply(ttl, s, step);
    if !step.Crash? { PromisedKeyWrites(ttl, s, step, r, key, ts); }
    forall n | t.flushed <= n <= |t.log|
      ensures Lookup(t.log[..n], key) == Some(Pending(ts)) || IsSpent(Lookup(t.log[..n], key))
    {
      if n <= |s.log| {
        assert t.log[..n] == s.log[..n];
      } else {
        assert t.log[..n] == t.log;
        assert s.log[..|s.log|] == s.log;
      }
    }
  }

  lemma PromisePreserved(ttl: U64, s: State, step: Step, r: nat, key: Key, ts: U64)
    requires Exclusive(ttl, s) && Enabled(s, step) && Steady(s, step) && Promised(s, r, key, ts)
    requires step != Release(r) && s.clock - ts <= ttl
    ensures Promised(Apply(ttl, s, step), r, key, ts)
  {
    var t := Apply(ttl, s, step);
    StillBlocked(ttl, s, step, r, key, ts);
    forall q | q in t.reqs && q != r && t.reqs[q].key == key && Holder(t.reqs[q].phase)
      ensures t.reqs[q].phase.ts != ts
    {
      NobodyTakesOver(ttl, s, step, r, key, ts, q);
    }
    OwnerMovesOn(ttl, s, step, r, key, ts);
  }

  lemma OwnerMovesOn(ttl: U64, s: State, step: Step, r: nat, key: Key, ts: U64)
    requires Enabled(s, step) && Steady(s, step) && Promised(s, r, key, ts) && step != Release(r)
    ensures var t := Apply(ttl, s, step);
            ts <= t.clock && r in t.reqs && t.reqs[r].key == key && Reserved?(t.reqs[r].phase, ts)
  {
  }

  /** The theorem: once its reservation has been flushed, a request that does not release it keeps
      everybody else out until the time to live has passed, through any number of crashes. Whoever
      else holds the key afterwards held it, with the same pending value, before. */
  lemma {:induction false} FlushedReservationBlocks(ttl: U64, s: State, steps: seq<Step>, t: State, r: nat, key: Key,
                                                    ts: U64)
    requires Exclusive(ttl, s) && Promised(s, r, key, ts) && SteadyRun(ttl, s, steps, t)
    requires Release(r) !in steps && t.clock - ts <= ttl
    ensures Promised(t, r, key, ts)
    ensures forall q :: q in t.reqs && q != r && t.reqs[q].key == key && Holder(t.reqs[q].phase) ==> HeldAlike(s, t, q)
    decreases |steps|
  {
    if steps != [] {
      var u := Apply(ttl, s, steps[0]);
      ExclusivePreserved(ttl, s, steps[0]);
      ExclusiveRun(ttl, u, steps[1..], t);
      assert s.clock <= u.clock;
      PromisePreserved(ttl, s, steps[0], r, key, ts);
      FlushedReservationBlocks(ttl, u, steps[1..], t, r, key, ts);
      forall q | q in t.reqs && q != r && t.reqs[q].key == key && Holder(t.reqs[q].phase) ensures HeldAlike(s, t, q) {
        assert HeldAlike(u, t, q);
        NobodyTakesOver(ttl, s, steps[0], r, key, ts, q);
      }
    }
  }

  /** The same, from the start of a run: while the reservation is unexpired, every log a crash could
      leave blocks the key, and a lone request is refused. */
  lemma ReservationShutsOthersOut(ttl: U64, s0: State, before: seq<Step>, s: State, r: nat, after: seq<Step>, t: State,
                                  mine: seq<Byte>, io: Io)
    requires Initial(s0) && SteadyRun(ttl, s0, before, s) && Enabled(s, FlushReserve(r, true))
    requires SteadyRun(ttl, Apply(ttl, s, FlushReserve(r, true)), after, t)
    requires Release(r) !in after && t.clock - s.reqs[r].phase.ts <= ttl
    ensures Blocked(t, s.reqs[r].key, s.reqs[r].phase.ts)
    ensures var (d, out) := NullifierStore.Reserved(Disk(t.log, t.flushed), s.reqs[r].key, mine, ttl, t.clock, io);
            d == Disk(t.log, t.flushed) && out == if io.first && io.get then AlreadyUsed else DbError
    ensures forall q :: q in t.reqs && q != r && t.reqs[q].key == s.reqs[r].key && Holder(t.reqs[q].phase) ==>
            HeldAlike(s, t, q)
  {
    var u := Apply(ttl, s, FlushReserve(r, true));
    var key, ts := s.reqs[r].key, s.reqs[r].phase.ts;
    ExclusiveRun(ttl, s0, before, s);
    ExclusivePreserved(ttl, s, FlushReserve(r, true));
    ExclusiveRun(ttl, u, after, t);
    PromiseStarts(ttl, s, r);
    FlushedReservationBlocks(ttl, u, after, t, r, key, ts);
    assert t.log[..|t.log|] == t.log;
    FreshIsNotStale(ts, t.clock, ttl);
  }

  /** A pending mark nobody finishes does not lock the key: a lone request gets it exactly when the
      time to live has passed and none of its calls on the database fails. */
  lemma AbandonedKeyComesBack(d: Disk, key: Key, ts: U64, mine: seq<Byte>, ttl: U64, now: U64, io: Io)
    requires Lookup(d.log, key) == Some(Pending(ts)) && ts <= now
    ensures Reserved(d, key, mine, ttl, now, io).1 == Done <==>
            now - ts > ttl && io.first && io.get && io.second && io.flush
  {
    FreshIsNotStale(ts, now, ttl);
  }
}
