/** Tickets that are returned twice, and sessions that are split. */
module LedgerWitnesses {
  import opened Bytes
  import opened Token
  import opened Tickets
  import S = Sessions

  lemma RunSnoc(l: Ledger, calls: seq<Call>, call: Call)
    ensures Run(l, calls + [call]) == Enter(Run(l, calls), call)
  {
    assert (calls + [call])[..|calls|] == calls;
  }

  lemma OnlyTicket(t: Ticket)
    ensures Next(Stock([t], [t]), t.tokenClass, t.commitmentRoot, false) == (Stock([], [t]), Issued(t))
  {
    assert Without([t], 0) == [];
  }

  /** A ticket whose issue could not be written out is issued again after a restart. */
  lemma UnsavedTicketIsIssuedTwice(t: Ticket)
    ensures var take := Take(t.tokenClass, t.commitmentRoot, false);
            Run(Opened([t]), [take, Restart, take]).returned == multiset{t, t}
  {
    var take := Take(t.tokenClass, t.commitmentRoot, false);
    OnlyTicket(t);
    var after := Enter(Enter(Opened([t]), take), Restart);
    assert after.stock == Stock([t], [t]) && after.returned == multiset{t};
    RunThree(Opened([t]), take, Restart, take);
  }

  lemma RunTwo(l: Ledger, a: Call, b: Call)
    ensures Run(l, [a, b]) == Enter(Run(l, [a]), b) && Run(l, [a]) == Enter(l, a)
  {
    RunSnoc(l, [], a);
    RunSnoc(l, [a], b);
    assert [] + [a] == [a] && [a] + [b] == [a, b];
  }

  lemma RunThree(l: Ledger, a: Call, b: Call, c: Call)
    ensures Run(l, [a, b, c]) == Enter(Enter(Enter(l, a), b), c)
  {
    RunTwo(l, a, b);
    RunSnoc(l, [a, b], c);
    assert [a, b] + [c] == [a, b, c];
  }

  /** A ticket dropped for belonging to another request is there again after a restart. */
  lemma DroppedTicketComesBack(t: Ticket, other: seq<Byte>)
    requires other != t.commitmentRoot
    ensures var drop := Take(t.tokenClass, other, true);
            && Run(Opened([t]), [drop]).stock.tickets == [] && Run(Opened([t]), [drop, Restart]).stock.tickets == [t]
  {
    var drop := Take(t.tokenClass, other, true);
    RunTwo(Opened([t]), drop, Restart);
    assert Without([t], 0) == [];
  }

  /** Two callers of one session with different runtimes, around a late insertion. */
  lemma LateInsertSplitsSession()
    ensures var got := [S.Call("a"), S.ReadLook(0), S.WriteLook(0, true)];
            var late := [S.InsertPrebuilt("a"), S.Call("a"), S.ReadLook(1)];
            && S.Run(S.EMPTY, got) == Some(S.State(map["a" := 0], 1, [S.Done("a", S.Got(0))]))
            && S.Run(S.State(map["a" := 0], 1, [S.Done("a", S.Got(0))]), late)
               == Some(S.State(map["a" := 1], 2, [S.Done("a", S.Got(0)), S.Done("a", S.Got(1))]))
  {
    assert |"a"| == 1;
    AsciiBytes("a");
    FirstCaller("a");
    LateCaller("a");
  }

  lemma FirstCaller(id: string)
    requires S.ValidSessionId(id)
    ensures S.Run(S.EMPTY, [S.Call(id), S.ReadLook(0), S.WriteLook(0, true)])
         == Some(S.State(map[id := 0], 1, [S.Done(id, S.Got(0))]))
  {
    var s1 := S.State(map[], 0, [S.Waiting(id)]);
    var s2 := S.State(map[], 0, [S.Missed(id)]);
    var s3 := S.State(map[id := 0], 1, [S.Done(id, S.Got(0))]);
    Step(S.EMPTY, S.Call(id), s1, [S.ReadLook(0), S.WriteLook(0, true)]);
    Step(s1, S.ReadLook(0), s2, [S.WriteLook(0, true)]);
    Step(s2, S.WriteLook(0, true), s3, []);
    S.RunOne(s3, []);
  }

  lemma LateCaller(id: string)
    requires S.ValidSessionId(id)
    ensures S.Run(S.State(map[id := 0], 1, [S.Done(id, S.Got(0))]), [S.InsertPrebuilt(id), S.Call(id), S.ReadLook(1)])
         == Some(S.State(map[id := 1], 2, [S.Done(id, S.Got(0)), S.Done(id, S.Got(1))]))
  {
    var s3 := S.State(map[id := 0], 1, [S.Done(id, S.Got(0))]);
    var s4 := S.State(map[id := 1], 2, [S.Done(id, S.Got(0))]);
    var s5 := S.State(map[id := 1], 2, [S.Done(id, S.Got(0)), S.Waiting(id)]);
    var s6 := S.State(map[id := 1], 2, [S.Done(id, S.Got(0)), S.Done(id, S.Got(1))]);
    Step(s3, S.InsertPrebuilt(id), s4, [S.Call(id), S.ReadLook(1)]);
    Step(s4, S.Call(id), s5, [S.ReadLook(1)]);
    Step(s5, S.ReadLook(1), s6, []);
    S.RunOne(s6, []);
  }

  lemma Step(s: S.State, step: S.Step, t: S.State, rest: seq<S.Step>)
    requires S.Enabled(s, step) && S.Apply(s, step) == t
    ensures S.Run(s, [step] + rest) == S.Run(t, rest)
  {
    assert ([step] + rest)[1..] == rest;
  }
}
