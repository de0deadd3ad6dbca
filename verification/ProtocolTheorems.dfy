/** Guarantees over whole runs of the backend protocol. */
module ProtocolTheorems {
  import opened Fifo
  import opened Protocol
  import opened ProtocolProofs

  // ---- Histories only grow --------------------------------------------------

  /** From an earlier to a later state of a run, queues are only added, committed
      records are only appended, and consumption only advances. */
  lemma {:induction false} RunGrows(opt: Options, states: seq<Sys>, moves: seq<Move>, a: nat, b: nat, id: nat)
    requires opt.Valid() && Run(opt, states, moves) && a <= b < |states| && id < |states[a].qs|
    ensures id < |states[b].qs|
    ensures states[a].qs[id].committed <= states[b].qs[id].committed
    ensures states[a].qs[id].consumed <= states[b].qs[id].consumed
    decreases b - a
  {
    if a < b {
      RunInv(opt, states, moves, a);
      assert SysStep(opt, states[a], moves[a], states[a + 1]);
      StepQueues(opt, states[a], moves[a], states[a + 1]);
      RunGrows(opt, states, moves, a + 1, b, id);
    }
  }

  lemma {:induction false} MarkFixed(opt: Options, states: seq<Sys>, moves: seq<Move>, a: nat, b: nat)
    requires Run(opt, states, moves) && a <= b < |states| && states[a].c.flag
    ensures states[b].c.flag && states[b].c.mark == states[a].c.mark
    decreases b - a
  {
    if a < b {
      assert SysStep(opt, states[a], moves[a], states[a + 1]);
      MarkFixed(opt, states, moves, a + 1, b);
    }
  }

  // ---- Drain, then stop -----------------------------------------------------

  /** If the worker has stopped with draining on, every record committed before
      the flag was first stored has been consumed, for every queue that existed
      then: whether its thread is alive, has exited, or was retired meanwhile. */
  lemma DrainThenStop(opt: Options, states: seq<Sys>, moves: seq<Move>, n: nat, k: nat, id: nat)
    requires opt.Valid() && opt.waitForDrain && Run(opt, states, moves)
    requires n < |moves| && moves[n].StoreFlag? && !states[n].c.flag
    requires n < k < |states| && states[k].c.pc.Done?
    requires id < |states[n].qs|
    ensures id < |states[k].qs|
    ensures states[n].qs[id].committed <= states[k].qs[id].committed
    ensures |states[n].qs[id].committed| <= states[k].qs[id].consumed
  {
    assert SysStep(opt, states[n], moves[n], states[n + 1]);
    MarkFixed(opt, states, moves, n + 1, k);
    RunGrows(opt, states, moves, n, k, id);
    RunInv(opt, states, moves, k);
    assert Drained(states[k], id);
  }

  /** The worker never stops before the flag has been stored, draining or not. */
  lemma StopsOnlyAfterFlag(opt: Options, states: seq<Sys>, moves: seq<Move>, k: nat)
    requires opt.Valid() && Run(opt, states, moves)
    requires k < |states| && states[k].c.pc.Done?
    ensures exists n: nat :: n < k && moves[n].StoreFlag? && !states[n].c.flag
  {
    RunInv(opt, states, moves, k);
    FlagHasStore(opt, states, moves, k);
  }

  lemma {:induction false} FlagHasStore(opt: Options, states: seq<Sys>, moves: seq<Move>, k: nat)
    requires Run(opt, states, moves) && k < |states| && states[k].c.flag
    ensures exists n: nat :: n < k && moves[n].StoreFlag? && !states[n].c.flag
  {
    if k > 0 {
      assert SysStep(opt, states[k - 1], moves[k - 1], states[k]);
      if states[k - 1].c.flag {
        FlagHasStore(opt, states, moves, k - 1);
      }
    }
  }

  // ---- Retirement -----------------------------------------------------------

  /** Once a queue has left the registry it holds nothing, and for the rest of
      the run nothing is ever committed to it. */
  lemma RetirementLosesNothing(opt: Options, states: seq<Sys>, moves: seq<Move>, a: nat, b: nat, id: nat)
    requires opt.Valid() && Run(opt, states, moves) && a <= b < |states|
    requires id < |states[a].qs| && id !in states[a].c.registry
    ensures id < |states[b].qs|
    ensures states[b].qs[id].committed == states[a].qs[id].committed
    ensures states[b].qs[id].consumed == |states[b].qs[id].committed|
  {
    RunInv(opt, states, moves, a);
    ClosedForever(opt, states, moves, a, b, id, states[a].qs[id].committed);
  }

  /** Queue `id` is retired for good, with this history. */
  ghost predicate Closed(s: Sys, id: nat, history: seq<Chunk>) {
    && id < |s.qs| && id < |s.c.alive| && !s.c.alive[id]
    && s.qs[id].committed == history && s.qs[id].consumed == |history|
  }

  lemma ClosedStep(opt: Options, s: Sys, m: Move, s': Sys, id: nat, history: seq<Chunk>)
    requires Inv(opt, s) && SysStep(opt, s, m, s') && Closed(s, id, history)
    ensures Closed(s', id, history)
  {
    StepShape(opt, s, m, s');
    GoneStable(opt, s, m, s', id);
    if OnQueue(s.c, m) && QueueOf(s.c, m) == id {
      QueueStepOk(opt, s.qs[id], m.e, s'.qs[id]);
    }
  }

  lemma {:induction false} ClosedForever(opt: Options, states: seq<Sys>, moves: seq<Move>, a: nat, b: nat, id: nat, history: seq<Chunk>)
    requires opt.Valid() && Run(opt, states, moves) && a <= b < |states|
    requires Closed(states[a], id, history)
    ensures Closed(states[b], id, history)
    decreases b
  {
    if a < b {
      ClosedForever(opt, states, moves, a, b - 1, id, history);
      RunInv(opt, states, moves, b - 1);
      assert SysStep(opt, states[b - 1], moves[b - 1], states[b]);
      ClosedStep(opt, states[b - 1], moves[b - 1], states[b], id, history);
    }
  }

  // ---- Exactly once, in commit order ----------------------------------------

  /** The records dispatched from queue `id`, in dispatch order. */
  function Project(log: seq<(nat, Chunk)>, id: nat): seq<Chunk> {
    if log == [] then []
    else
      var init := log[..|log| - 1];
      Project(init, id) + if log[|log| - 1].0 == id then [log[|log| - 1].1] else []
  }

  function Decodable(opt: Options, chunks: seq<Chunk>): seq<Chunk> {
    if chunks == [] then []
    else
      var init := chunks[..|chunks| - 1];
      Decodable(opt, init) + if opt.decodes(chunks[|chunks| - 1]) then [chunks[|chunks| - 1]] else []
  }

  ghost predicate InOrder(opt: Options, s: Sys, id: nat)
    requires id < |s.qs|
  {
    && s.qs[id].consumed <= |s.qs[id].committed|
    && Project(s.c.dispatched, id) == Decodable(opt, s.qs[id].committed[..s.qs[id].consumed])
  }

  lemma ProjectAppend(log: seq<(nat, Chunk)>, x: (nat, Chunk), id: nat)
    ensures Project(log + [x], id) == Project(log, id) + if x.0 == id then [x.1] else []
  {
    assert (log + [x])[..|log|] == log;
  }

  lemma {:induction false} ProjectNone(log: seq<(nat, Chunk)>, id: nat)
    requires forall i :: 0 <= i < |log| ==> log[i].0 != id
    ensures Project(log, id) == []
  {
    if log != [] {
      ProjectNone(log[..|log| - 1], id);
    }
  }

  lemma DecodableNext(opt: Options, chunks: seq<Chunk>, k: nat)
    requires k < |chunks|
    ensures Decodable(opt, chunks[..k + 1]) ==
            Decodable(opt, chunks[..k]) + if opt.decodes(chunks[k]) then [chunks[k]] else []
  {
    assert chunks[..k + 1][..k] == chunks[..k];
  }

  lemma PrefixSlice(xs: seq<Chunk>, ys: seq<Chunk>, k: nat)
    requires xs <= ys && k <= |xs|
    ensures xs[..k] == ys[..k]
  {
  }

  ghost predicate Ordered(opt: Options, s: Sys) {
    && (forall i :: 0 <= i < |s.c.dispatched| ==> s.c.dispatched[i].0 < |s.qs| && opt.decodes(s.c.dispatched[i].1))
    && (forall id: nat :: id < |s.qs| ==> InOrder(opt, s, id))
  }

  /** A move that consumes nothing leaves the dispatch history alone. */
  lemma DispatchUnchanged(opt: Options, s: Sys, m: Move, s': Sys)
    requires Inv(opt, s) && SysStep(opt, s, m, s') && !(m.OnConsumer? && m.e.Read?)
    ensures s'.c.dispatched == s.c.dispatched && s'.c.undecodable == s.c.undecodable
    ensures forall id :: 0 <= id < |s.qs| ==> s'.qs[id].consumed == s.qs[id].consumed
  {
    if OnQueue(s.c, m) {
      var id := QueueOf(s.c, m);
      QueueStepOk(opt, s.qs[id], m.e, s'.qs[id]);
    }
  }

  /** A read dispatches the record it consumed, or counts it as undecodable. */
  lemma ReadDispatches(opt: Options, s: Sys, m: Move, s': Sys)
    requires Inv(opt, s) && SysStep(opt, s, m, s') && m.OnConsumer? && m.e.Read?
    ensures var id := WorkerQueue(s.c);
      && id < |s.qs| == |s'.qs|
      && s.qs[id].consumed < |s.qs[id].committed| && m.e.chunk == s.qs[id].committed[s.qs[id].consumed]
      && s'.qs == s.qs[id := s.qs[id].(consumed := s.qs[id].consumed + 1)]
      && s'.c.dispatched == s.c.dispatched + (if opt.decodes(m.e.chunk) then [(id, m.e.chunk)] else [])
      && s'.c.undecodable == s.c.undecodable + (if opt.decodes(m.e.chunk) then 0 else 1)
  {
    assert s.c.dispatched + [] == s.c.dispatched;
  }

  /** What reading `chunk` from queue `w` adds to the dispatch history. */
  function Entry(opt: Options, w: nat, chunk: Chunk): seq<(nat, Chunk)> {
    if opt.decodes(chunk) then [(w, chunk)] else []
  }

  lemma ProjectEntry(opt: Options, log: seq<(nat, Chunk)>, w: nat, chunk: Chunk, id: nat)
    ensures Project(log + Entry(opt, w, chunk), id) ==
            Project(log, id) + if opt.decodes(chunk) && w == id then [chunk] else []
  {
    if opt.decodes(chunk) {
      ProjectAppend(log, (w, chunk), id);
    } else {
      assert log + [] == log;
    }
  }

  lemma OneMoreConsumed(opt: Options, log: seq<(nat, Chunk)>, chunks: seq<Chunk>, k: nat, w: nat)
    requires k < |chunks| && Project(log, w) == Decodable(opt, chunks[..k])
    ensures Project(log + Entry(opt, w, chunks[k]), w) == Decodable(opt, chunks[..k + 1])
  {
    ProjectEntry(opt, log, w, chunks[k], w);
    DecodableNext(opt, chunks, k);
  }

  /** One more record of queue `w` consumed, and entered in the dispatch history. */
  lemma InOrderAfter(opt: Options, s: Sys, s': Sys, w: nat, id: nat)
    requires w < |s.qs| && id < |s.qs| && InOrder(opt, s, id) && s.qs[w].consumed < |s.qs[w].committed|
    requires s'.qs == s.qs[w := s.qs[w].(consumed := s.qs[w].consumed + 1)]
    requires s'.c.dispatched == s.c.dispatched + Entry(opt, w, s.qs[w].committed[s.qs[w].consumed])
    ensures InOrder(opt, s', id)
  {
    if id == w {
      OneMoreConsumed(opt, s.c.dispatched, s.qs[id].committed, s.qs[id].consumed, w);
    } else {
      ProjectEntry(opt, s.c.dispatched, w, s.qs[w].committed[s.qs[w].consumed], id);
    }
  }

  lemma InOrderRead(opt: Options, s: Sys, m: Move, s': Sys, id: nat)
    requires Inv(opt, s) && SysStep(opt, s, m, s') && m.OnConsumer? && m.e.Read?
    requires id < |s.qs| && InOrder(opt, s, id)
    ensures id < |s'.qs| && InOrder(opt, s', id)
  {
    ReadDispatches(opt, s, m, s');
    InOrderAfter(opt, s, s', WorkerQueue(s.c), id);
  }

  lemma InOrderOther(opt: Options, s: Sys, m: Move, s': Sys, id: nat)
    requires Inv(opt, s) && SysStep(opt, s, m, s') && !(m.OnConsumer? && m.e.Read?)
    requires id < |s.qs| && InOrder(opt, s, id)
    ensures id < |s'.qs| && InOrder(opt, s', id)
  {
    DispatchUnchanged(opt, s, m, s');
    StepQueues(opt, s, m, s');
    PrefixSlice(s.qs[id].committed, s'.qs[id].committed, s.qs[id].consumed);
  }

  lemma StepOrdered(opt: Options, s: Sys, m: Move, s': Sys)
    requires Inv(opt, s) && SysStep(opt, s, m, s') && Ordered(opt, s)
    ensures Ordered(opt, s')
  {
    if m.OnConsumer? && m.e.Read? {
      ReadDispatches(opt, s, m, s');
    } else {
      DispatchUnchanged(opt, s, m, s');
    }
    forall id: nat | id < |s'.qs| ensures InOrder(opt, s', id) {
      if id >= |s.qs| {
        ProjectNone(s.c.dispatched, id);
      } else if m.OnConsumer? && m.e.Read? {
        InOrderRead(opt, s, m, s', id);
      } else {
        InOrderOther(opt, s, m, s', id);
      }
    }
  }

  /** In every state of every run, what has been dispatched from a thread's queue
      is exactly its consumed records that decode: each once, in commit order. */
  lemma {:induction false} DispatchedInCommitOrder(opt: Options, states: seq<Sys>, moves: seq<Move>, n: nat)
    requires opt.Valid() && Run(opt, states, moves) && n < |states|
    ensures Ordered(opt, states[n])
  {
    if n > 0 {
      DispatchedInCommitOrder(opt, states, moves, n - 1);
      RunInv(opt, states, moves, n - 1);
      assert SysStep(opt, states[n - 1], moves[n - 1], states[n]);
      StepOrdered(opt, states[n - 1], moves[n - 1], states[n]);
    }
  }

  /** A record that decodes stands in what is dispatched behind those before it. */
  lemma {:induction false} DecodableAt(opt: Options, chunks: seq<Chunk>, j: nat)
    requires j < |chunks| && opt.decodes(chunks[j])
    ensures var p := |Decodable(opt, chunks[..j])|;
      p < |Decodable(opt, chunks)| && Decodable(opt, chunks)[p] == chunks[j]
    decreases |chunks|
  {
    var init := chunks[..|chunks| - 1];
    if j < |init| {
      DecodableAt(opt, init, j);
      assert init[..j] == chunks[..j];
    }
  }

  /** The dispatch that the `p`-th record of queue `id` came with. */
  lemma {:induction false} ProjectPlace(log: seq<(nat, Chunk)>, id: nat, p: nat) returns (k: nat)
    requires p < |Project(log, id)|
    ensures k < |log| && log[k] == (id, Project(log, id)[p]) && |Project(log[..k], id)| == p
  {
    var init := log[..|log| - 1];
    if p < |Project(init, id)| {
      k := ProjectPlace(init, id, p);
      assert init[..k] == log[..k];
    } else {
      k := |log| - 1;
    }
  }

  // ---- Conservation -----------------------------------------------------------

  function Sum(xs: seq<nat>): nat {
    if xs == [] then 0 else xs[0] + Sum(xs[1..])
  }

  lemma {:induction false} SumUpdate(xs: seq<nat>, i: nat, x: nat)
    requires i < |xs|
    ensures Sum(xs[i := x]) == Sum(xs) - xs[i] + x
  {
    if i == 0 {
      assert xs[0 := x][1..] == xs[1..];
    } else {
      assert xs[i := x][1..] == xs[1..][i - 1 := x];
      SumUpdate(xs[1..], i - 1, x);
    }
  }

  lemma {:induction false} SumAppend(xs: seq<nat>, x: nat)
    ensures Sum(xs + [x]) == Sum(xs) + x
  {
    if xs == [] {
    } else {
      assert (xs + [x])[1..] == xs[1..] + [x];
      SumAppend(xs[1..], x);
    }
  }

  function ConsumedCounts(qs: seq<Queue>): (counts: seq<nat>)
    ensures |counts| == |qs|
    ensures forall i :: 0 <= i < |qs| ==> counts[i] == qs[i].consumed
  {
    seq(|qs|, i requires 0 <= i < |qs| => qs[i].consumed)
  }

  /** One for every queue whose thread is inside a log call. */
  function CallCounts(calls: seq<Call>): (counts: seq<nat>)
    ensures |counts| == |calls|
    ensures forall i :: 0 <= i < |calls| ==> counts[i] == if calls[i].Idle? then 0 else 1
  {
    seq(|calls|, i requires 0 <= i < |calls| => if calls[i].Idle? then 0 else 1)
  }

  /** Every log call that started is complete or under way; every complete one
      was committed or counted as dropped; every committed record was
      dispatched, found undecodable, or is still in a ring. */
  ghost predicate Balanced(s: Sys) {
    && s.c.started == s.c.completed + Sum(CallCounts(s.c.calls))
    && s.c.completed == Sum(Counts(s.qs)) + s.c.dropped
    && Sum(ConsumedCounts(s.qs)) == |s.c.dispatched| + s.c.undecodable
  }

  lemma SetCall(calls: seq<Call>, id: nat, call: Call)
    requires id < |calls|
    ensures Sum(CallCounts(calls[id := call])) ==
            Sum(CallCounts(calls)) - (if calls[id].Idle? then 0 else 1) + (if call.Idle? then 0 else 1)
  {
    var n := if call.Idle? then 0 else 1;
    assert CallCounts(calls[id := call]) == CallCounts(calls)[id := n];
    SumUpdate(CallCounts(calls), id, n);
  }

  lemma SetQueue(qs: seq<Queue>, id: nat, q: Queue)
    requires id < |qs|
    ensures Sum(Counts(qs[id := q])) == Sum(Counts(qs)) - |qs[id].committed| + |q.committed|
    ensures Sum(ConsumedCounts(qs[id := q])) == Sum(ConsumedCounts(qs)) - qs[id].consumed + q.consumed
  {
    assert Counts(qs[id := q]) == Counts(qs)[id := |q.committed|];
    SumUpdate(Counts(qs), id, |q.committed|);
    assert ConsumedCounts(qs[id := q]) == ConsumedCounts(qs)[id := q.consumed];
    SumUpdate(ConsumedCounts(qs), id, q.consumed);
  }

  lemma BalancedRegister(opt: Options, s: Sys, m: Move, s': Sys)
    requires SysStep(opt, s, m, s') && m.Register? && Balanced(s)
    ensures Balanced(s')
  {
    assert CallCounts(s'.c.calls) == CallCounts(s.c.calls) + [0];
    assert Counts(s'.qs) == Counts(s.qs) + [0];
    assert ConsumedCounts(s'.qs) == ConsumedCounts(s.qs) + [0];
    SumAppend(CallCounts(s.c.calls), 0);
    SumAppend(Counts(s.qs), 0);
    SumAppend(ConsumedCounts(s.qs), 0);
  }

  lemma BalancedProducer(opt: Options, s: Sys, m: Move, s': Sys)
    requires Inv(opt, s) && SysStep(opt, s, m, s') && m.OnProducer? && Balanced(s)
    ensures Balanced(s')
  {
    var id := s.c.slots[m.t];
    QueueStepOk(opt, s.qs[id], m.e, s'.qs[id]);
    SetQueue(s.qs, id, s'.qs[id]);
    SetCall(s.c.calls, id, s'.c.calls[id]);
    assert s'.c.calls == s.c.calls[id := s'.c.calls[id]];
  }

  lemma BalancedConsumer(opt: Options, s: Sys, m: Move, s': Sys)
    requires Inv(opt, s) && SysStep(opt, s, m, s') && m.OnConsumer? && Balanced(s)
    ensures Balanced(s')
  {
    var id := WorkerQueue(s.c);
    QueueStepOk(opt, s.qs[id], m.e, s'.qs[id]);
    SetQueue(s.qs, id, s'.qs[id]);
    if m.e.Read? {
      ReadDispatches(opt, s, m, s');
    } else {
      DispatchUnchanged(opt, s, m, s');
    }
    assert s'.c.calls == s.c.calls;
  }

  lemma StepBalanced(opt: Options, s: Sys, m: Move, s': Sys)
    requires Inv(opt, s) && SysStep(opt, s, m, s') && Balanced(s)
    ensures Balanced(s')
  {
    if m.Register? {
      BalancedRegister(opt, s, m, s');
    } else if m.OnProducer? {
      BalancedProducer(opt, s, m, s');
    } else if m.OnConsumer? {
      BalancedConsumer(opt, s, m, s');
    } else if m.CountDrop? {
      SetCall(s.c.calls, s.c.slots[m.t], Idle);
    } else {
      assert s'.c.calls == s.c.calls && s'.qs == s.qs;
    }
  }

  /** The books balance in every state of every run. */
  lemma {:induction false} Conservation(opt: Options, states: seq<Sys>, moves: seq<Move>, n: nat)
    requires opt.Valid() && Run(opt, states, moves) && n < |states|
    ensures Balanced(states[n])
  {
    if n == 0 {
      assert CallCounts([]) == [] && Counts([]) == [] && ConsumedCounts([]) == [];
    } else {
      Conservation(opt, states, moves, n - 1);
      RunInv(opt, states, moves, n - 1);
      assert SysStep(opt, states[n - 1], moves[n - 1], states[n]);
      StepBalanced(opt, states[n - 1], moves[n - 1], states[n]);
    }
  }
}
