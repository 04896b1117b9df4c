/** The gateway's nullifier database: the values it stores, the log that makes it durable, and
    the three sequences of database calls that reserve, spend and release a replay key. */
module NullifierStore {
  import opened Bytes

  type Key = seq<Byte>

  const PENDING: Byte := 112
  const SPENT: Byte := 115

  // ---------------------------------------------------------------- stored values

  function Encode(status: Byte, ts: U64): seq<Byte> {
    [status] + ToBigEndian(ts, 8)
  }

  function Decode(v: seq<Byte>): Option<(Byte, nat)> {
    if |v| != 9 then None else Some((v[0], FromBigEndian(v[1..])))
  }

  function Pending(ts: U64): seq<Byte> { Encode(PENDING, ts) }

  lemma DecodeEncode(status: Byte, ts: U64)
    ensures Decode(Encode(status, ts)) == Some((status, ts))
  {
    U64FitsEightBytes(ts);
    BigEndianRoundTrip(ts, 8);
    assert Encode(status, ts)[1..] == ToBigEndian(ts, 8);
  }

  /** A status byte, then the time, highest byte first. */
  lemma EncodeLayout(status: Byte, ts: U64)
    ensures var v := Encode(status, ts);
            && |v| == 9 && v[0] == status
            && ts == 0x100_0000_0000_0000 * (v[1] as int) + 0x1_0000_0000_0000 * (v[2] as int)
                     + 0x100_0000_0000 * (v[3] as int) + 0x1_0000_0000 * (v[4] as int)
                     + 0x100_0000 * (v[5] as int) + 0x1_0000 * (v[6] as int) + 0x100 * (v[7] as int) + v[8]
  {
    var v := Encode(status, ts);
    DecodeEncode(status, ts);
    EightBytes(v[1..]);
  }

  /** Pending values begin with a `p`, spent ones with an `s`. */
  lemma StatusLetters(ts: U64)
    ensures Pending(ts)[0] == 'p' as int && Encode(SPENT, ts)[0] == 's' as int && IsSpent(Some(Encode(SPENT, ts)))
  {
    DecodeEncode(SPENT, ts);
  }

  /** Every nine-byte value is the encoding of what it decodes to. */
  lemma EncodeDecode(v: seq<Byte>)
    requires |v| == 9
    ensures FromBigEndian(v[1..]) < 0x1_0000_0000_0000_0000 && v == Encode(v[0], FromBigEndian(v[1..]))
  {
    EightBytes(v[1..]);
    ReadIsWritten(v[1..]);
  }

  lemma PendingInjective(a: U64, b: U64)
    requires Pending(a) == Pending(b)
    ensures a == b
  {
    DecodeEncode(PENDING, a);
    DecodeEncode(PENDING, b);
  }

  predicate IsSpent(v: Option<seq<Byte>>) {
    v.Some? && Decode(v.value).Some? && Decode(v.value).value.0 == SPENT
  }

  /** A stored value the slow path may take over at time `now`: an old enough pending mark. */
  predicate IsStale(v: seq<Byte>, now: U64, ttl: U64) {
    match Decode(v)
    case None => false
    case Some((status, ts)) => status == PENDING && SaturatingSub(now, ts) > ttl
  }

  /** A pending value from more than `ttl` before `now`. */
  ghost predicate IsOld(v: seq<Byte>, now: U64, ttl: U64) {
    exists ts: U64 :: v == Pending(ts) && ts + ttl < now
  }

  lemma StaleIsOld(v: seq<Byte>, now: U64, ttl: U64)
    ensures IsStale(v, now, ttl) <==> IsOld(v, now, ttl)
  {
    if IsStale(v, now, ttl) {
      EncodeDecode(v);
      assert v == Pending(FromBigEndian(v[1..]));
    }
    if IsOld(v, now, ttl) {
      var ts: U64 :| v == Pending(ts) && ts + ttl < now;
      DecodeEncode(PENDING, ts);
    }
  }

  // ---------------------------------------------------------------- the write log

  /** One database write; a value of `None` deletes the key. */
  datatype Write = Write(key: Key, value: Option<seq<Byte>>)

  /** The current value of a key: whatever the last write to it left. */
  function Lookup(log: seq<Write>, key: Key): Option<seq<Byte>> {
    if log == [] then None
    else if log[|log| - 1].key == key then log[|log| - 1].value
    else Lookup(log[..|log| - 1], key)
  }

  lemma LookupAppend(log: seq<Write>, w: Write, key: Key)
    ensures Lookup(log + [w], key) == if w.key == key then w.value else Lookup(log, key)
  {
    assert (log + [w])[..|log|] == log;
  }

  /** The log after a compare-and-swap, which writes only when the expectation is met. */
  function Swap(log: seq<Write>, key: Key, expected: Option<seq<Byte>>, value: Option<seq<Byte>>): seq<Write> {
    if Lookup(log, key) == expected then log + [Write(key, value)] else log
  }

  /** Memory is the whole log; the disk is guaranteed to hold its first `flushed` writes. */
  datatype Disk = Disk(log: seq<Write>, flushed: nat)

  // ---------------------------------------------------------------- the operations, as functions

  datatype Outcome = Done | AlreadyUsed | DbError

  /** Which database calls of one operation succeed; a failed call has no effect. */
  datatype Io = Io(first: bool, get: bool, second: bool, flush: bool)

  function Sync(d: Disk, ok: bool): Disk {
    if ok then d.(flushed := |d.log|) else d
  }

  function Reserved(d: Disk, key: Key, mine: seq<Byte>, ttl: U64, now: U64, io: Io): (r: (Disk, Outcome)) {
    if !io.first then (d, DbError)
    else if Lookup(d.log, key).None? then
      (Sync(d.(log := d.log + [Write(key, Some(mine))]), io.flush), if io.flush then Done else DbError)
    else if !io.get then (d, DbError)
    else if !IsStale(Lookup(d.log, key).value, now, ttl) then (d, AlreadyUsed)
    else if !io.second then (d, DbError)
    else (Sync(d.(log := d.log + [Write(key, Some(mine))]), io.flush), if io.flush then Done else DbError)
  }

  function Marked(d: Disk, key: Key, mine: seq<Byte>, spent: seq<Byte>, io: Io): (r: (Disk, Outcome)) {
    if !io.first || Lookup(d.log, key) != Some(mine) then (d, DbError)
    else (Sync(d.(log := d.log + [Write(key, Some(spent))]), io.flush), if io.flush then Done else DbError)
  }

  function Released(d: Disk, key: Key, mine: seq<Byte>, io: Io): (r: (Disk, Outcome)) {
    if !io.first then (d, DbError)
    else if Lookup(d.log, key) != Some(mine) then (d, Done)
    else (Sync(d.(log := d.log + [Write(key, None)]), io.flush), if io.flush then Done else DbError)
  }

  // ---------------------------------------------------------------- what they do

  /** The key now holds `value`, no other key has changed, and all of it is durable. */
  ghost predicate Wrote(d: Disk, e: Disk, key: Key, value: Option<seq<Byte>>) {
    && e.flushed == |e.log| && Lookup(e.log, key) == value
    && forall k: Key :: k != key ==> Lookup(e.log, k) == Lookup(d.log, k)
  }

  /** The same, not known to be durable. */
  ghost predicate Tried(d: Disk, e: Disk, key: Key, value: Option<seq<Byte>>) {
    && e.flushed == d.flushed && Lookup(e.log, key) == value
    && forall k: Key :: k != key ==> Lookup(e.log, k) == Lookup(d.log, k)
  }

  lemma WriteWrote(d: Disk, key: Key, value: Option<seq<Byte>>, ok: bool)
    ensures var e := Sync(d.(log := d.log + [Write(key, value)]), ok);
            if ok then Wrote(d, e, key, value) else Tried(d, e, key, value)
  {
    forall k: Key ensures Lookup(d.log + [Write(key, value)], k) == if k == key then value else Lookup(d.log, k) {
      LookupAppend(d.log, Write(key, value), k);
    }
  }

  /** A free key is reserved by every call whose two database calls succeed, a pending one when it is old
      and all four succeed, and no other. A refusal needs a key that is taken. Whoever is told `Done`
      holds the key. */
  lemma ReserveMeans(d: Disk, key: Key, mine: seq<Byte>, ttl: U64, now: U64, io: Io)
    ensures var (v, (e, out)) := (Lookup(d.log, key), Reserved(d, key, mine, ttl, now, io));
            && (v.None? ==> out == if io.first && io.flush then Done else DbError)
            && (v.Some? && IsOld(v.value, now, ttl) ==>
                  out == if io.first && io.get && io.second && io.flush then Done else DbError)
            && (v.Some? && !IsOld(v.value, now, ttl) ==> out == if io.first && io.get then AlreadyUsed else DbError)
            && (out == Done ==> Wrote(d, e, key, Some(mine)))
            && (out == AlreadyUsed ==> e == d)
            && (out == DbError ==> e == d || (!io.flush && Tried(d, e, key, Some(mine))))
  {
    if Lookup(d.log, key).Some? { StaleIsOld(Lookup(d.log, key).value, now, ttl); }
    WriteWrote(d, key, Some(mine), io.flush);
  }

  /** Marking succeeds exactly when the key holds this request's value and both calls succeed. */
  lemma MarkMeans(d: Disk, key: Key, mine: seq<Byte>, spent: seq<Byte>, io: Io)
    ensures var (e, out) := Marked(d, key, mine, spent, io);
            && out == (if Lookup(d.log, key) == Some(mine) && io.first && io.flush then Done else DbError)
            && (out == Done ==> Wrote(d, e, key, Some(spent)))
            && (out != Done ==> e == d || (!io.flush && Tried(d, e, key, Some(spent))))
            && (Lookup(d.log, key) != Some(mine) ==> e == d)
  {
    WriteWrote(d, key, Some(spent), io.flush);
  }

  /** Releasing frees the key when it holds this request's value, and does nothing when it does not. */
  lemma ReleaseMeans(d: Disk, key: Key, mine: seq<Byte>, io: Io)
    ensures var (v, (e, out)) := (Lookup(d.log, key), Released(d, key, mine, io));
            && (v == Some(mine) ==> out == if io.first && io.flush then Done else DbError)
            && (v == Some(mine) && out == Done ==> Wrote(d, e, key, None))
            && (v == Some(mine) && out != Done ==> e == d || (!io.flush && Tried(d, e, key, None)))
            && (v != Some(mine) ==> e == d && out == if io.first then Done else DbError)
  {
    WriteWrote(d, key, None, io.flush);
  }

  // ---------------------------------------------------------------- the operations, in place

  class Sled {
    var log: seq<Write>
    var flushed: nat

    ghost predicate Valid() reads this { flushed <= |log| }

    ghost function State(): Disk reads this { Disk(log, flushed) }

    constructor ()
      ensures Valid() && State() == Disk([], 0)
    {
      log, flushed := [], 0;
    }

    method CompareAndSwap(key: Key, expected: Option<seq<Byte>>, value: Option<seq<Byte>>) returns (ok: bool)
      requires Valid()
      modifies this
      ensures Valid() && flushed == old(flushed)
      ensures ok == (Lookup(old(log), key) == expected)
      ensures log == Swap(old(log), key, expected, value)
    {
      ok := Lookup(log, key) == expected;
      if ok { log := log + [Write(key, value)]; }
    }

    method Flush(ok: bool)
      requires Valid()
      modifies this
      ensures Valid() && State() == Sync(old(State()), ok)
    {
      if ok { flushed := |log|; }
    }

    /** Reserve a replay key: take it when it is free, or take over a stale reservation. */
    method ReserveNullifier(key: Key, pendingVal: seq<Byte>, ttl: U64, now: U64, io: Io) returns (r: Outcome)
      requires Valid()
      modifies this
      ensures Valid()
      ensures (State(), r) == Reserved(old(State()), key, pendingVal, ttl, now, io)
      ensures Lookup(old(log), key).None? ==> r == if io.first && io.flush then Done else DbError
      ensures r == Done ==> Wrote(old(State()), State(), key, Some(pendingVal))
    {
      ReserveMeans(State(), key, pendingVal, ttl, now, io);
      if !io.first { return DbError; }
      var free := CompareAndSwap(key, None, Some(pendingVal));
      if free {
        Flush(io.flush);
        return if io.flush then Done else DbError;
      }
      if !io.get { return DbError; }
      var existing := Lookup(log, key);
      if existing.Some? {
        match Decode(existing.value) {
          case Some((status, ts)) =>
            if status == PENDING {
              if SaturatingSub(now, ts) > ttl {
                if !io.second { return DbError; }
                var taken := CompareAndSwap(key, existing, Some(pendingVal));
                if taken {
                  Flush(io.flush);
                  return if io.flush then Done else DbError;
                }
              }
            }
          case None =>
        }
      }
      return AlreadyUsed;
    }

    /** Turn this request's own reservation into a spent mark. */
    method MarkNullifierSpent(key: Key, pendingVal: seq<Byte>, spentVal: seq<Byte>, io: Io) returns (r: Outcome)
      requires Valid()
      modifies this
      ensures Valid()
      ensures (State(), r) == Marked(old(State()), key, pendingVal, spentVal, io)
      ensures r == if Lookup(old(log), key) == Some(pendingVal) && io.first && io.flush then Done else DbError
      ensures r == Done ==> Wrote(old(State()), State(), key, Some(spentVal))
    {
      MarkMeans(State(), key, pendingVal, spentVal, io);
      if !io.first { return DbError; }
      var mine := CompareAndSwap(key, Some(pendingVal), Some(spentVal));
      if !mine { return DbError; }
      Flush(io.flush);
      return if io.flush then Done else DbError;
    }

    /** Give up this request's own reservation, if it still stands. */
    method ReleasePendingNullifier(key: Key, pendingVal: seq<Byte>, io: Io) returns (r: Outcome)
      requires Valid()
      modifies this
      ensures Valid()
      ensures (State(), r) == Released(old(State()), key, pendingVal, io)
      ensures Lookup(old(log), key) == Some(pendingVal) && r == Done ==> Wrote(old(State()), State(), key, None)
    {
      ReleaseMeans(State(), key, pendingVal, io);
      if !io.first { return DbError; }
      var mine := CompareAndSwap(key, Some(pendingVal), None);
      if mine {
        Flush(io.flush);
        return if io.flush then Done else DbError;
      }
      return Done;
    }
  }
}
