/** Any number of inference requests racing on the nullifier database. Every database call, clock
    read and provider reply is a step of its own, and steps of different requests interleave freely.
    A crash ends every request in flight and keeps some prefix of the log that is at least as long
    as the flushed one. */
module NullifierProtocol {
  import opened Bytes
  import opened NullifierStore

  /** Where a request stands. `ts` is the clock reading inside its pending value, which is fixed
      before it first touches the database. */
  datatype Phase =
    | Arrived
    | Ready(ts: U64)                                 // pending value computed
    | Contended(ts: U64)                             // the key was taken
    | Seen(ts: U64, found: seq<Byte>)                // the value that holds the key was read
    | Stale(ts: U64, found: seq<Byte>)               // ... and judged old enough to take over
    | Reserving(ts: U64)                             // own pending value written, flush outstanding
    | Calling(ts: U64)                               // waiting for the provider
    | Answered(ts: U64)                              // the provider succeeded
    | Marking(ts: U64, spentAt: U64)                 // spent value computed
    | Confirming(ts: U64)                            // spent value written, flush outstanding
    | Rejected(ts: U64)                              // the provider failed
    | Releasing(ts: U64)                             // pending value removed, flush outstanding
    | Paid                                           // the caller gets an Ok payload
    | Closed                                         // the caller gets an error, or nothing

  datatype Request = Request(key: Key, phase: Phase)

  datatype State = State(log: seq<Write>, flushed: nat, clock: U64, reqs: map<nat, Request>)

  datatype Step =
    | Arrive(r: nat, key: Key)
    | Stamp(r: nat)
    | CasAbsent(r: nat)
    | Read(r: nat)
    | CheckClock(r: nat)
    | CasStale(r: nat)
    | FlushReserve(r: nat, ok: bool)
    | Provider(r: nat, ok: bool)
    | StampSpent(r: nat)
    | Mark(r: nat)
    | FlushSpent(r: nat, ok: bool)
    | Release(r: nat)
    | FlushRelease(r: nat, ok: bool)
    | Abandon(r: nat)                                // dropped, cancelled, or a failed database call
    | SetClock(now: U64)                             // the system clock may jump anywhere
    | Persist(upto: nat)                             // the database writes to disk on its own
    | Crash(keep: nat, durable: nat)                 // restart from the first `keep` writes

  predicate At(s: State, r: nat) { r in s.reqs }

  /** Which steps are possible. */
  predicate Enabled(s: State, step: Step) {
    match step
    case Arrive(r, _) => r !in s.reqs
    case Stamp(r) => At(s, r) && s.reqs[r].phase.Arrived?
    case CasAbsent(r) => At(s, r) && s.reqs[r].phase.Ready?
    case Read(r) => At(s, r) && s.reqs[r].phase.Contended?
    case CheckClock(r) => At(s, r) && s.reqs[r].phase.Seen?
    case CasStale(r) => At(s, r) && s.reqs[r].phase.Stale?
    case FlushReserve(r, _) => At(s, r) && s.reqs[r].phase.Reserving?
    case Provider(r, _) => At(s, r) && s.reqs[r].phase.Calling?
    case StampSpent(r) => At(s, r) && s.reqs[r].phase.Answered?
    case Mark(r) => At(s, r) && s.reqs[r].phase.Marking?
    case FlushSpent(r, _) => At(s, r) && s.reqs[r].phase.Confirming?
    case Release(r) => At(s, r) && s.reqs[r].phase.Rejected?
    case FlushRelease(r, _) => At(s, r) && s.reqs[r].phase.Releasing?
    case Abandon(r) => At(s, r) && !s.reqs[r].phase.Paid?
    case SetClock(_) => true
    case Persist(upto) => s.flushed <= upto <= |s.log|
    case Crash(keep, durable) => s.flushed <= durable <= keep <= |s.log|
  }

  function Go(s: State, r: nat, phase: Phase): State
    requires At(s, r)
  {
    s.(reqs := s.reqs[r := s.reqs[r].(phase := phase)])
  }

  /** The log after request `r` tries to swap `expected` for `value` under its key. */
  function Try(s: State, r: nat, expected: Option<seq<Byte>>, value: Option<seq<Byte>>): State
    requires At(s, r)
  {
    s.(log := Swap(s.log, s.reqs[r].key, expected, value))
  }

  predicate Holds(s: State, r: nat, expected: Option<seq<Byte>>)
    requires At(s, r)
  {
    Lookup(s.log, s.reqs[r].key) == expected
  }

  function FlushNow(s: State, ok: bool): State {
    if ok then s.(flushed := |s.log|) else s
  }

  /** In-flight requests die with the process; answers already given stay given. */
  function Survivor(q: Request): Request {
    if q.phase.Paid? then q else q.(phase := Closed)
  }

  function Apply(ttl: U64, s: State, step: Step): State
    requires Enabled(s, step)
  {
    match step
    case Arrive(r, key) => s.(reqs := s.reqs[r := Request(key, Arrived)])
    case Stamp(r) => Go(s, r, Ready(s.clock))
    case CasAbsent(r) =>
      var ts := s.reqs[r].phase.ts;
      Go(Try(s, r, None, Some(Pending(ts))), r, if Holds(s, r, None) then Reserving(ts) else Contended(ts))
    case Read(r) =>
      var v := Lookup(s.log, s.reqs[r].key);
      Go(s, r, if v.Some? then Seen(s.reqs[r].phase.ts, v.value) else Closed)
    case CheckClock(r) =>
      var p := s.reqs[r].phase;
      Go(s, r, if IsStale(p.found, s.clock, ttl) then Stale(p.ts, p.found) else Closed)
    case CasStale(r) =>
      var p := s.reqs[r].phase;
      Go(Try(s, r, Some(p.found), Some(Pending(p.ts))), r,
         if Holds(s, r, Some(p.found)) then Reserving(p.ts) else Closed)
    case FlushReserve(r, ok) => Go(FlushNow(s, ok), r, if ok then Calling(s.reqs[r].phase.ts) else Closed)
    case Provider(r, ok) =>
      var ts := s.reqs[r].phase.ts;
      Go(s, r, if ok then Answered(ts) else Rejected(ts))
    case StampSpent(r) => Go(s, r, Marking(s.reqs[r].phase.ts, s.clock))
    case Mark(r) =>
      var p := s.reqs[r].phase;
      Go(Try(s, r, Some(Pending(p.ts)), Some(Encode(SPENT, p.spentAt))), r,
         if Holds(s, r, Some(Pending(p.ts))) then Confirming(p.ts) else Closed)
    case FlushSpent(r, ok) => Go(FlushNow(s, ok), r, if ok then Paid else Closed)
    case Release(r) =>
      var ts := s.reqs[r].phase.ts;
      Go(Try(s, r, Some(Pending(ts)), None), r, if Holds(s, r, Some(Pending(ts))) then Releasing(ts) else Closed)
    case FlushRelease(r, ok) => Go(FlushNow(s, ok), r, Closed)
    case Abandon(r) => Go(s, r, Closed)
    case SetClock(now) => s.(clock := now)
    case Persist(upto) => s.(flushed := upto)
    case Crash(keep, durable) =>
      State(s.log[..keep], durable, s.clock, map r | r in s.reqs :: Survivor(s.reqs[r]))
  }

  /** A run: the steps are possible one after the other and lead from `s` to `t`. */
  ghost predicate Run(ttl: U64, s: State, steps: seq<Step>, t: State)
    decreases |steps|
  {
    if steps == [] then s == t
    else Enabled(s, steps[0]) && Run(ttl, Apply(ttl, s, steps[0]), steps[1..], t)
  }

  /** Nobody has asked anything yet; the database may hold anything. */
  predicate Initial(s: State) {
    s.reqs == map[] && s.flushed <= |s.log|
  }

  /** The clock never goes back during a run. */
  predicate Steady(s: State, step: Step) {
    step.SetClock? ==> s.clock <= step.now
  }

  ghost predicate SteadyRun(ttl: U64, s: State, steps: seq<Step>, t: State)
    decreases |steps|
  {
    if steps == [] then s == t
    else Enabled(s, steps[0]) && Steady(s, steps[0]) && SteadyRun(ttl, Apply(ttl, s, steps[0]), steps[1..], t)
  }
}
