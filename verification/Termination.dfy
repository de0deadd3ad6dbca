/** What the worker has left to do once the shutdown flag is set: a measure that
    every step of its control brings down, on queues of chunks. `RingTermination`
    adds the steps inside a ring and concludes. */
module Termination {
  import opened Fifo
  import opened Protocol
  import opened ProtocolProofs
  import opened ProtocolTheorems
  import opened Fairness

  /** A step of the worker that its control sees. */
  predicate WorkerMove(m: Move) {
    || m.LoadFlag? || m.TakeSnapshot? || m.NextConsumer? || m.LoadAlive? || m.EndRetire? || m.Decide? || m.EndCheck?
    || (m.OnConsumer? && !m.e.Tau?)
  }

  ghost predicate WorkerStep(opt: Options, s: Sys, m: Move, s': Sys) {
    WorkerMove(m) && SysStep(opt, s, m, s')
  }

  /** The worker's own indices are in range, and inside `try_read_one` there is a
      record to read. */
  ghost predicate Located(s: Sys) {
    match s.c.pc
    case Drain(i, _) => i <= |s.c.snapshot|
    case Busy(i, b) =>
      && i < |s.c.snapshot| && b < MAX_BATCH_PER_CONSUMER
      && s.c.snapshot[i] < |s.qs| && s.qs[s.c.snapshot[i]].consumed < s.qs[s.c.snapshot[i]].seen
    case Check(i) => i <= |s.c.registry|
    case _ => true
  }

  // ---- Located is an invariant -----------------------------------------------------

  lemma LocatedOnConsumer(opt: Options, s: Sys, m: Move, s': Sys)
    requires Inv(opt, s) && SysStep(opt, s, m, s') && Located(s) && m.OnConsumer?
    ensures Located(s')
  {
    var w := WorkerQueue(s.c);
    QueueStepOk(opt, s.qs[w], m.e, s'.qs[w]);
    if s.c.pc.Drain? {
      NoPartialRecord(opt, s'.qs[w]);
    }
  }

  lemma OthersKeepPc(opt: Options, c: Control, m: Move)
    requires Enabled(opt, c, m) && !WorkerMove(m) && !m.OnConsumer?
    ensures Next(opt, c, m).pc == c.pc && Next(opt, c, m).snapshot == c.snapshot && |Next(opt, c, m).registry| >= |c.registry|
  {
  }

  lemma LocatedStep(opt: Options, s: Sys, m: Move, s': Sys)
    requires Inv(opt, s) && SysStep(opt, s, m, s') && Located(s)
    ensures Located(s')
  {
    if m.OnConsumer? {
      LocatedOnConsumer(opt, s, m, s');
    } else if !WorkerMove(m) {
      OthersKeepPc(opt, s.c, m);
      StepQueues(opt, s, m, s');
    }
  }

  lemma {:induction false} LocatedRun(opt: Options, states: seq<Sys>, moves: seq<Move>, n: nat)
    requires opt.Valid() && Run(opt, states, moves) && n < |states|
    ensures Located(states[n])
  {
    if n > 0 {
      LocatedRun(opt, states, moves, n - 1);
      RunInv(opt, states, moves, n - 1);
      assert SysStep(opt, states[n - 1], moves[n - 1], states[n]);
      LocatedStep(opt, states[n - 1], moves[n - 1], states[n]);
    }
  }

  // ---- What every step brings down ------------------------------------------------------

  /** Some queue with a backlog still has its turn in the pass under way. */
  ghost predicate Owed(s: Sys) {
    && InDrain(s.c)
    && exists j :: s.c.pc.i <= j < |s.c.snapshot| && Due(s, j)
  }

  ghost predicate Due(s: Sys, j: nat)
    requires InDrain(s.c) && j < |s.c.snapshot|
  {
    (j == s.c.pc.i ==> s.c.pc.b < MAX_BATCH_PER_CONSUMER) && s.c.snapshot[j] < |s.qs| && Pending(s.qs[s.c.snapshot[j]])
  }

  /** With a backlog: a pass that owes nothing more comes before one that will read.
      Without: a pass begun before the flag comes before the last one. */
  ghost function Tier(s: Sys): nat {
    if s.c.pc.Done? then 0
    else if Backlog(s.qs) > 0 then (if s.c.pc.Top? || s.c.pc.Snap? || Owed(s) then 0 else 1)
    else if s.c.pc.Top? then 1 else if s.c.shuttingDown then 0 else 2
  }

  function Stage(c: Control): nat {
    match c.pc
    case Top => 6
    case Snap => 5
    case Drain(_, _) => 4
    case Busy(_, _) => 4
    case Retire(_, _) => 3
    case RetireQuery(_, _) => 3
    case Retired => 2
    case Check(_) => 1
    case Done => 0
  }

  function ToGo(c: Control): nat {
    var n := if InDrain(c) then |c.snapshot| else |c.registry|;
    match c.pc
    case Drain(i, _) => if i < n then n - i else 0
    case Busy(i, _) => if i < n then n - i else 0
    case Retire(i, _) => if i < n then n - i else 0
    case RetireQuery(i, _) => if i < n then n - i else 0
    case Check(i) => if i < n then n - i else 0
    case _ => 0
  }

  function Waiting(c: Control): nat {
    if c.pc.Busy? || c.pc.RetireQuery? then 0 else 1
  }

  /** `t` comes strictly after `s` in the order of what is left to do. */
  ghost predicate Closer(t: Sys, s: Sys) {
    || Backlog(t.qs) < Backlog(s.qs)
    || (Backlog(t.qs) == Backlog(s.qs) && (Tier(t) < Tier(s) || (Tier(t) == Tier(s) && Nearer(t.c, s.c))))
  }

  predicate Nearer(d: Control, c: Control) {
    || Stage(d) < Stage(c)
    || (Stage(d) == Stage(c) && (ToGo(d) < ToGo(c) || (ToGo(d) == ToGo(c) && Waiting(d) < Waiting(c))))
  }

  ghost predicate SameRecords(qs: seq<Queue>, qs': seq<Queue>) {
    && |qs| == |qs'|
    && forall i :: 0 <= i < |qs| ==> qs'[i].committed == qs[i].committed && qs'[i].consumed == qs[i].consumed
  }

  lemma SameBacklog(qs: seq<Queue>, qs': seq<Queue>)
    requires SameRecords(qs, qs')
    ensures Backlog(qs') == Backlog(qs)
  {
    assert Lags(qs') == Lags(qs);
  }

  lemma OtherMovesKeepRecords(opt: Options, s: Sys, m: Move, s': Sys)
    requires Inv(opt, s) && WorkerStep(opt, s, m, s') && !(m.OnConsumer? && m.e.Read?)
    ensures SameRecords(s.qs, s'.qs) && Backlog(s'.qs) == Backlog(s.qs)
  {
    if m.OnConsumer? {
      var w := WorkerQueue(s.c);
      QueueStepOk(opt, s.qs[w], m.e, s'.qs[w]);
    }
    SameBacklog(s.qs, s'.qs);
  }

  lemma ReadShrinksBacklog(opt: Options, s: Sys, m: Move, s': Sys)
    requires Inv(opt, s) && WorkerStep(opt, s, m, s') && m.OnConsumer? && m.e.Read?
    ensures Backlog(s'.qs) < Backlog(s.qs)
  {
    ReadDispatches(opt, s, m, s');
    var w := WorkerQueue(s.c);
    assert Lags(s'.qs) == Lags(s.qs)[w := Lags(s'.qs)[w]];
    SumUpdate(Lags(s.qs), w, Lags(s'.qs)[w]);
  }

  /** A pass that starts with a backlog will read: every queue with records is in its snapshot. */
  lemma SnapshotOwes(opt: Options, s: Sys, s': Sys)
    requires Inv(opt, s) && WorkerStep(opt, s, TakeSnapshot, s') && Backlog(s.qs) > 0
    ensures Owed(s')
  {
    SumBounds(Lags(s.qs));
    var id: nat :| id < |s.qs| && Lags(s.qs)[id] > 0;
    assert Pending(s.qs[id]) && (id in s.c.registry || Gone(s, id));
    var j :| 0 <= j < |s.c.registry| && s.c.registry[j] == id;
    assert Due(s', j);
  }

  /** Moving to the next consumer, its predecessor having had its turn. */
  lemma OwedNext(s: Sys, s': Sys)
    requires s.c.pc.Drain? && s.c.pc.i < |s.c.snapshot| && !Due(s, s.c.pc.i) && SameRecords(s.qs, s'.qs)
    requires s'.c.snapshot == s.c.snapshot && s'.c.pc == Drain(s.c.pc.i + 1, 0)
    ensures Owed(s') <==> Owed(s)
  {
    if Owed(s) {
      var j :| s.c.pc.i <= j < |s.c.snapshot| && Due(s, j);
      assert Due(s', j);
    }
    if Owed(s') {
      var j :| s'.c.pc.i <= j < |s'.c.snapshot| && Due(s', j);
      assert Due(s, j);
    }
  }

  lemma CloserNextConsumer(opt: Options, s: Sys, s': Sys)
    requires Inv(opt, s) && Located(s) && WorkerStep(opt, s, NextConsumer, s')
    ensures Closer(s', s)
  {
    OtherMovesKeepRecords(opt, s, NextConsumer, s');
    if s.c.pc.i < |s.c.snapshot| {
      OwedNext(s, s');
    }
  }

  lemma CloserBegin(opt: Options, s: Sys, m: Move, s': Sys)
    requires Inv(opt, s) && Located(s) && WorkerStep(opt, s, m, s') && m.OnConsumer? && s.c.pc.Drain?
    ensures Closer(s', s)
  {
    OtherMovesKeepRecords(opt, s, m, s');
    var w := WorkerQueue(s.c);
    QueueStepOk(opt, s.qs[w], m.e, s'.qs[w]);
    if m.e.bytes < opt.header {
      OwedNext(s, s');
    } else {
      NoPartialRecord(opt, s'.qs[w]);
      assert Due(s, s.c.pc.i) && Due(s', s'.c.pc.i);
    }
  }

  lemma CloserRetire(opt: Options, s: Sys, m: Move, s': Sys)
    requires Inv(opt, s) && WorkerStep(opt, s, m, s') && m.OnConsumer? && s.c.pc.RetireQuery?
    ensures Closer(s', s)
  {
    OtherMovesKeepRecords(opt, s, m, s');
  }

  lemma CloserCheck(opt: Options, s: Sys, m: Move, s': Sys)
    requires Inv(opt, s) && WorkerStep(opt, s, m, s') && m.OnConsumer? && s.c.pc.Check?
    ensures Closer(s', s)
  {
    OtherMovesKeepRecords(opt, s, m, s');
    var w := WorkerQueue(s.c);
    if m.e.bytes > 0 {
      QueueStepOk(opt, s.qs[w], m.e, s'.qs[w]);
      NoPartialRecord(opt, s'.qs[w]);
      SumBounds(Lags(s.qs));
      assert Lags(s.qs)[w] > 0;
    }
  }

  lemma CloserPlain(opt: Options, s: Sys, m: Move, s': Sys)
    requires Inv(opt, s) && Located(s) && WorkerStep(opt, s, m, s') && !m.OnConsumer? && !m.NextConsumer? && s.c.flag
    ensures Closer(s', s)
  {
    OtherMovesKeepRecords(opt, s, m, s');
    if m.TakeSnapshot? && Backlog(s.qs) > 0 {
      SnapshotOwes(opt, s, s');
    }
  }

  /** Once the flag is set, every step of the worker leaves less to do. */
  lemma EveryStepCloser(opt: Options, s: Sys, m: Move, s': Sys)
    requires Inv(opt, s) && Located(s) && WorkerStep(opt, s, m, s') && s.c.flag
    ensures Closer(s', s)
  {
    if m.OnConsumer? && m.e.Read? {
      ReadShrinksBacklog(opt, s, m, s');
    } else if m.OnConsumer? && s.c.pc.Drain? {
      CloserBegin(opt, s, m, s');
    } else if m.OnConsumer? && s.c.pc.RetireQuery? {
      CloserRetire(opt, s, m, s');
    } else if m.OnConsumer? {
      CloserCheck(opt, s, m, s');
    } else if m.NextConsumer? {
      CloserNextConsumer(opt, s, s');
    } else {
      CloserPlain(opt, s, m, s');
    }
  }
}
