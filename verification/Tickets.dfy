/** Pre-minted tickets in a file: each is spent at most once, as long as the file can be written. */
module Tickets {
  import opened Bytes
  import opened Token

  datatype Outcome = Issued(ticket: Ticket) | Empty | NotBound(dropped: Ticket)

  /** The tickets in memory and in the file. */
  datatype Stock = Stock(tickets: seq<Ticket>, file: seq<Ticket>)

  /** The first ticket of a class, or the first of all when there is none of that class. */
  function Position(tickets: seq<Ticket>, c: TokenClass): (i: nat)
    requires tickets != []
    ensures i < |tickets|
    ensures tickets[i].tokenClass == c ==> forall k :: 0 <= k < i ==> tickets[k].tokenClass != c
    ensures tickets[i].tokenClass != c ==> i == 0 && forall k :: 0 <= k < |tickets| ==> tickets[k].tokenClass != c
  {
    match FirstOf(tickets, c, 0)
    case Some(i) => i
    case None => 0
  }

  function FirstOf(tickets: seq<Ticket>, c: TokenClass, from: nat): (r: Option<nat>)
    requires from <= |tickets|
    ensures r.Some? ==> from <= r.value < |tickets| && tickets[r.value].tokenClass == c
                        && forall k :: from <= k < r.value ==> tickets[k].tokenClass != c
    ensures r.None? ==> forall k :: from <= k < |tickets| ==> tickets[k].tokenClass != c
    decreases |tickets| - from
  {
    if from == |tickets| then None
    else if tickets[from].tokenClass == c then Some(from)
    else FirstOf(tickets, c, from + 1)
  }

  function Without(tickets: seq<Ticket>, i: nat): seq<Ticket>
    requires i < |tickets|
  {
    tickets[..i] + tickets[i + 1..]
  }

  /** One call. A ticket for another request is dropped from memory but stays in the file. */
  function Next(s: Stock, c: TokenClass, commitment: seq<Byte>, written: bool): (Stock, Outcome) {
    if s.tickets == [] then (s, Empty)
    else
      var i := Position(s.tickets, c);
      var rest := Without(s.tickets, i);
      if s.tickets[i].commitmentRoot != commitment then (s.(tickets := rest), NotBound(s.tickets[i]))
      else (Stock(rest, if written then rest else s.file), Issued(s.tickets[i]))
  }

  class FileTicketSource {
    var tickets: seq<Ticket>
    var file: seq<Ticket>

    function Holding(): Stock
      reads this
    {
      Stock(tickets, file)
    }

    constructor Load(file: seq<Ticket>)
      ensures Holding() == Stock(file, file)
    {
      this.tickets, this.file := file, file;
    }

    /** Writing is best effort; a write that fails leaves the old file. */
    method Persist(written: bool)
      modifies this`file
      ensures file == if written then tickets else old(file)
    {
      if written { file := tickets; }
    }

    method NextTicket(c: TokenClass, commitment: seq<Byte>, written: bool) returns (r: Outcome)
      modifies this
      ensures (Holding(), r) == Next(old(Holding()), c, commitment, written)
      ensures r.Issued? ==> r.ticket.commitmentRoot == commitment && r.ticket in old(tickets)
    {
      if tickets == [] { return Empty; }
      var i := Position(tickets, c);
      var ticket := tickets[i];
      tickets := tickets[..i] + tickets[i + 1..];
      if ticket.commitmentRoot != commitment { return NotBound(ticket); }
      Persist(written);
      return Issued(ticket);
    }
  }

  // ---------------------------------------------------------------- runs

  datatype Call = Take(tokenClass: TokenClass, commitment: seq<Byte>, written: bool) | Restart

  /** Where every ticket went. `dropped` and `unwritten`: no longer in memory, still in the file, because
      they belonged to another request, or were returned and could not be written out. `lost`: dropped,
      and no longer in the file. `again`: returned, and brought back by a restart. */
  datatype Ledger = Ledger(stock: Stock, returned: multiset<Ticket>, dropped: multiset<Ticket>,
                           unwritten: multiset<Ticket>, lost: multiset<Ticket>, again: multiset<Ticket>)

  function Opened(file: seq<Ticket>): Ledger {
    Ledger(Stock(file, file), multiset{}, multiset{}, multiset{}, multiset{}, multiset{})
  }

  function Enter(l: Ledger, call: Call): Ledger {
    match call
    case Restart =>
      Ledger(Stock(l.stock.file, l.stock.file), l.returned, multiset{}, multiset{}, l.lost, l.again + l.unwritten)
    case Take(c, commitment, written) =>
      var (s, r) := Next(l.stock, c, commitment, written);
      match r
      case Empty => l
      case NotBound(t) => l.(stock := s, dropped := l.dropped + multiset{t})
      case Issued(t) =>
        if written then Ledger(s, l.returned + multiset{t}, multiset{}, multiset{}, l.lost + l.dropped, l.again)
        else l.(stock := s, returned := l.returned + multiset{t}, unwritten := l.unwritten + multiset{t})
  }

  function Run(l: Ledger, calls: seq<Call>): Ledger
    decreases |calls|
  {
    if calls == [] then l else Enter(Run(l, calls[..|calls| - 1]), calls[|calls| - 1])
  }

  predicate Balances(initial: multiset<Ticket>, l: Ledger) {
    && multiset(l.stock.file) == multiset(l.stock.tickets) + l.dropped + l.unwritten
    && initial + l.again + l.unwritten == multiset(l.stock.file) + l.returned + l.lost
    && l.unwritten <= l.returned
  }

  lemma WithoutBalances(tickets: seq<Ticket>, i: nat)
    requires i < |tickets|
    ensures multiset(tickets) == multiset(Without(tickets, i)) + multiset{tickets[i]}
  {
    assert tickets == tickets[..i] + [tickets[i]] + tickets[i + 1..];
  }

  /** Every call and every restart keeps the books, whether or not the file can be written. */
  lemma EnterBalances(initial: multiset<Ticket>, l: Ledger, call: Call)
    requires Balances(initial, l)
    ensures Balances(initial, Enter(l, call))
  {
    if call.Take? && l.stock.tickets != [] {
      var i := Position(l.stock.tickets, call.tokenClass);
      WithoutBalances(l.stock.tickets, i);
      TakenBalances(initial, l, Without(l.stock.tickets, i), l.stock.tickets[i]);
    }
  }

  /** The books after one ticket `t` left memory: dropped, issued and unwritten, or issued and written. */
  lemma TakenBalances(initial: multiset<Ticket>, l: Ledger, rest: seq<Ticket>, t: Ticket)
    requires Balances(initial, l) && multiset(l.stock.tickets) == multiset(rest) + multiset{t}
    ensures var one := multiset{t};
            && Balances(initial, l.(stock := Stock(rest, l.stock.file), dropped := l.dropped + one))
            && Balances(initial, l.(stock := Stock(rest, l.stock.file), returned := l.returned + one,
                                    unwritten := l.unwritten + one))
            && Balances(initial, Ledger(Stock(rest, rest), l.returned + one, multiset{}, multiset{},
                                        l.lost + l.dropped, l.again))
  {
    Moved(multiset(l.stock.tickets), multiset(rest), t, l.dropped, l.unwritten);
    Counted(initial, multiset(l.stock.file), multiset(rest), t, l.returned, l.dropped, l.unwritten, l.lost, l.again);
  }

  lemma Moved(before: multiset<Ticket>, after: multiset<Ticket>, t: Ticket, dropped: multiset<Ticket>,
              unwritten: multiset<Ticket>)
    requires before == after + multiset{t}
    ensures before + dropped + unwritten == after + (dropped + multiset{t}) + unwritten
    ensures before + dropped + unwritten == after + dropped + (unwritten + multiset{t})
  {
  }

  lemma Counted(initial: multiset<Ticket>, file: multiset<Ticket>, after: multiset<Ticket>, t: Ticket,
                returned: multiset<Ticket>, dropped: multiset<Ticket>, unwritten: multiset<Ticket>,
                lost: multiset<Ticket>, again: multiset<Ticket>)
    requires file == after + multiset{t} + dropped + unwritten && initial + again + unwritten == file + returned + lost
    ensures initial + again + (unwritten + multiset{t}) == file + (returned + multiset{t}) + lost
    ensures initial + again == after + (returned + multiset{t}) + (lost + dropped)
  {
    forall x: Ticket ensures (initial + again)[x] == (after + (returned + multiset{t}) + (lost + dropped))[x] {
      assert (initial + again + unwritten)[x] == (file + returned + lost)[x];
    }
  }

  /** Over all runs: every ticket that was there at first, or came back after it was returned, is in the
      file, returned or lost; and the file holds what is in memory and what could not be taken out of
      it. */
  lemma {:induction false} TicketsAreConserved(file: seq<Ticket>, calls: seq<Call>)
    ensures Balances(multiset(file), Run(Opened(file), calls))
    decreases |calls|
  {
    if calls != [] {
      TicketsAreConserved(file, calls[..|calls| - 1]);
      EnterBalances(multiset(file), Run(Opened(file), calls[..|calls| - 1]), calls[|calls| - 1]);
    }
  }

  // ---------------------------------------------------------------- when a returned ticket comes back

  /** What a call means for the file: `Saved` when the file now holds what is in memory, `Unsaved` when a
      ticket was issued and could not be written out. */
  datatype Event = Saved | Reloaded | Unsaved | Other

  predicate Issues(l: Ledger, call: Call) {
    call.Take? && Next(l.stock, call.tokenClass, call.commitment, call.written).1.Issued?
  }

  function EventOf(l: Ledger, call: Call): Event {
    if call.Restart? then Reloaded else if !Issues(l, call) then Other else if call.written then Saved else Unsaved
  }

  function Events(file: seq<Ticket>, calls: seq<Call>): (es: seq<Event>)
    ensures |es| == |calls|
  {
    if calls == [] then []
    else
      var before := calls[..|calls| - 1];
      Events(file, before) + [EventOf(Run(Opened(file), before), calls[|calls| - 1])]
  }

  /** An issued ticket could not be written out, and nothing was saved or reloaded since. */
  predicate UnsavedSince(es: seq<Event>, i: nat) {
    i < |es| && es[i] == Unsaved && forall j :: i < j < |es| ==> es[j] == Unsaved || es[j] == Other
  }

  predicate Pending(es: seq<Event>) { exists i :: 0 <= i < |es| && UnsavedSince(es, i) }

  /** Every issue is saved before the next reload. */
  predicate SavedInTime(es: seq<Event>) { forall k :: 0 <= k < |es| && es[k] == Reloaded ==> !Pending(es[..k]) }

  lemma PendingSnoc(es: seq<Event>, e: Event)
    ensures Pending(es + [e]) <==> e == Unsaved || (e == Other && Pending(es))
  {
    var all := es + [e];
    assert all[|es|] == e && forall j :: 0 <= j < |es| ==> es[j] == all[j];
    if e == Unsaved { assert UnsavedSince(all, |es|); }
    if e == Other && Pending(es) {
      var i :| 0 <= i < |es| && UnsavedSince(es, i);
      assert UnsavedSince(all, i);
    }
    if Pending(all) && e != Unsaved {
      var i :| 0 <= i < |all| && UnsavedSince(all, i);
      assert UnsavedSince(es, i);
    }
  }

  lemma SavedInTimeSnoc(es: seq<Event>, e: Event)
    ensures SavedInTime(es + [e]) <==> SavedInTime(es) && (e == Reloaded ==> !Pending(es))
  {
    var all := es + [e];
    assert all[..|es|] == es && all[|es|] == e;
    forall k | 0 <= k < |es| ensures all[..k] == es[..k] && all[k] == es[k] {}
  }

  lemma UnwrittenAfter(l: Ledger, call: Call)
    ensures Enter(l, call).unwritten != multiset{}
       <==> EventOf(l, call) == Unsaved || (EventOf(l, call) == Other && l.unwritten != multiset{})
  {
    if EventOf(l, call) == Unsaved {
      var t := Next(l.stock, call.tokenClass, call.commitment, call.written).1.ticket;
      assert Enter(l, call).unwritten[t] > 0;
    }
  }

  lemma {:induction false} UnwrittenIff(file: seq<Ticket>, calls: seq<Call>)
    ensures Run(Opened(file), calls).unwritten != multiset{} <==> Pending(Events(file, calls))
    decreases |calls|
  {
    if calls != [] {
      var before := calls[..|calls| - 1];
      var l := Run(Opened(file), before);
      UnwrittenIff(file, before);
      UnwrittenAfter(l, calls[|calls| - 1]);
      PendingSnoc(Events(file, before), EventOf(l, calls[|calls| - 1]));
    }
  }

  /** Over all runs: a restart brings back what was dropped or returned and not written out; returned
      tickets are among it exactly when one was issued after the last successful write. */
  lemma RestartBringsBackIff(file: seq<Ticket>, calls: seq<Call>)
    ensures var l := Run(Opened(file), calls);
            var m := Run(Opened(file), calls + [Restart]);
            && multiset(m.stock.tickets) == multiset(l.stock.tickets) + l.dropped + l.unwritten
            && m.again == l.again + l.unwritten && l.unwritten <= l.returned
            && (m.again != l.again <==> Pending(Events(file, calls)))
  {
    TicketsAreConserved(file, calls);
    UnwrittenIff(file, calls);
    assert (calls + [Restart])[..|calls|] == calls;
    Grows(Run(Opened(file), calls).again, Run(Opened(file), calls).unwritten);
  }

  lemma Grows(a: multiset<Ticket>, b: multiset<Ticket>)
    ensures a + b != a <==> b != multiset{}
    ensures a + b == multiset{} <==> a == multiset{} && b == multiset{}
  {
    if b != multiset{} {
      var t :| t in b;
      assert (a + b)[t] > a[t];
    }
    if a != multiset{} {
      var t :| t in a;
      assert (a + b)[t] > 0;
    }
  }

  lemma AgainAfter(l: Ledger, call: Call)
    ensures Enter(l, call).again == multiset{}
       <==> l.again == multiset{} && (EventOf(l, call) == Reloaded ==> l.unwritten == multiset{})
  {
    Grows(l.again, l.unwritten);
  }

  /** Over all runs: no returned ticket ever becomes available again exactly when every issue was saved
      before the next restart. */
  lemma {:induction false} NothingComesBackIff(file: seq<Ticket>, calls: seq<Call>)
    ensures Run(Opened(file), calls).again == multiset{} <==> SavedInTime(Events(file, calls))
    decreases |calls|
  {
    if calls != [] {
      var before := calls[..|calls| - 1];
      var l := Run(Opened(file), before);
      NothingComesBackIff(file, before);
      UnwrittenIff(file, before);
      AgainAfter(l, calls[|calls| - 1]);
      SavedInTimeSnoc(Events(file, before), EventOf(l, calls[|calls| - 1]));
    }
  }

  /** Then no ticket is returned more often than it was in the file. */
  lemma NoneReturnedTwice(file: seq<Ticket>, calls: seq<Call>)
    requires SavedInTime(Events(file, calls))
    ensures Run(Opened(file), calls).returned <= multiset(file)
  {
    var l := Run(Opened(file), calls);
    TicketsAreConserved(file, calls);
    NothingComesBackIff(file, calls);
    CountsReturned(multiset(file), multiset(l.stock.file), multiset(l.stock.tickets), l.returned, l.dropped,
                   l.unwritten, l.lost);
  }

  lemma CountsReturned(initial: multiset<Ticket>, file: multiset<Ticket>, tickets: multiset<Ticket>,
                       returned: multiset<Ticket>, dropped: multiset<Ticket>, unwritten: multiset<Ticket>,
                       lost: multiset<Ticket>)
    requires file == tickets + dropped + unwritten && initial + multiset{} + unwritten == file + returned + lost
    ensures returned <= initial && initial == tickets + returned + (dropped + lost)
  {
    forall x: Ticket ensures returned[x] <= initial[x] && initial[x] == (tickets + returned + (dropped + lost))[x] {
      assert (initial + multiset{} + unwritten)[x] == (file + returned + lost)[x];
    }
  }

  /** In the same terms for one call, in any state: the ticket it returns is back after a restart exactly
      when its write failed. */
  lemma ReturnedAgainIff(initial: multiset<Ticket>, l: Ledger, c: TokenClass, commitment: seq<Byte>, written: bool)
    requires Balances(initial, l) && Issues(l, Take(c, commitment, written))
    ensures var t := Next(l.stock, c, commitment, written).1.ticket;
            var after := Enter(l, Take(c, commitment, written));
            multiset(Enter(after, Restart).stock.tickets)[t] > multiset(after.stock.tickets)[t] <==> !written
  {
    EnterBalances(initial, l, Take(c, commitment, written));
    WithoutBalances(l.stock.tickets, Position(l.stock.tickets, c));
  }

  predicate SameLife(calls: seq<Call>) { forall i :: 0 <= i < |calls| ==> calls[i].Take? }

  lemma {:induction false} NoRestartNoReload(file: seq<Ticket>, calls: seq<Call>)
    requires SameLife(calls)
    ensures Run(Opened(file), calls).again == multiset{}
    decreases |calls|
  {
    if calls != [] {
      assert calls[|calls| - 1].Take?;
      NoRestartNoReload(file, calls[..|calls| - 1]);
    }
  }

  /** Within one process, whether or not the file can be written: what was there is still there, returned,
      or dropped. */
  lemma OneLifeConserves(file: seq<Ticket>, calls: seq<Call>)
    requires SameLife(calls)
    ensures var l := Run(Opened(file), calls);
            multiset(file) == multiset(l.stock.tickets) + l.returned + (l.dropped + l.lost)
  {
    var l := Run(Opened(file), calls);
    TicketsAreConserved(file, calls);
    NoRestartNoReload(file, calls);
    CountsReturned(multiset(file), multiset(l.stock.file), multiset(l.stock.tickets), l.returned, l.dropped,
                   l.unwritten, l.lost);
  }

  // ---------------------------------------------------------------- which ticket, and what is left

  /** The first of the class, or the very first when there is none of the class. */
  predicate Chosen(tickets: seq<Ticket>, c: TokenClass, i: nat) {
    i < |tickets| && if tickets[i].tokenClass == c then forall k :: 0 <= k < i ==> tickets[k].tokenClass != c
                     else i == 0 && forall k :: 0 <= k < |tickets| ==> tickets[k].tokenClass != c
  }

  /** Everything but number `i`, in the same order. */
  predicate TakenOut(tickets: seq<Ticket>, i: nat, rest: seq<Ticket>) {
    && i < |tickets| == |rest| + 1 && (forall k :: 0 <= k < i ==> rest[k] == tickets[k])
    && forall k :: i <= k < |rest| ==> rest[k] == tickets[k + 1]
  }

  /** One call: the chosen ticket leaves the list and the others keep their order; it is returned when it
      is bound to the request and dropped when it is not; the file changes only with a returned ticket. */
  lemma NextIs(s: Stock, c: TokenClass, commitment: seq<Byte>, written: bool)
    ensures s.tickets == [] ==> Next(s, c, commitment, written) == (s, Empty)
    ensures s.tickets != [] ==>
              var (t, r) := Next(s, c, commitment, written);
              exists i: nat :: Chosen(s.tickets, c, i) && TakenOut(s.tickets, i, t.tickets)
                && (if s.tickets[i].commitmentRoot == commitment then r == Issued(s.tickets[i])
                    else r == NotBound(s.tickets[i]))
                && t.file == if r.Issued? && written then t.tickets else s.file
  {
    if s.tickets != [] {
      var i := Position(s.tickets, c);
      assert Chosen(s.tickets, c, i) && TakenOut(s.tickets, i, Without(s.tickets, i));
    }
  }
}
