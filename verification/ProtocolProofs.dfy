/** What every move of the backend protocol keeps, and the guarantees over
    whole runs: nothing is lost to retirement, and a worker that stops has
    consumed everything committed before the shutdown flag was stored. */
module ProtocolProofs {
  import opened Fifo
  import opened Protocol

  ghost predicate Distinct(xs: seq<nat>) {
    forall i, j :: 0 <= i < j < |xs| ==> xs[i] != xs[j]
  }

  ghost predicate Below(xs: seq<nat>, n: nat) {
    forall i :: 0 <= i < |xs| ==> xs[i] < n
  }

  /** Live threads own live queues, one each. */
  ghost predicate Owned(c: Control) {
    && (forall t :: t in c.slots ==> c.slots[t] < |c.alive| && c.alive[c.slots[t]])
    && (forall t, u :: t in c.slots && u in c.slots && t != u ==> c.slots[t] != c.slots[u])
  }

  /** Bookkeeping: ids in range and unique. */
  ghost predicate Shape(s: Sys) {
    var c := s.c;
    && |c.alive| == |c.calls| == |s.qs|
    && Below(c.registry, |s.qs|) && Distinct(c.registry)
    && Below(c.snapshot, |s.qs|) && Distinct(c.snapshot)
    && Owned(c)
  }

  ghost predicate Whole(opt: Options, q: Queue) {
    q.Valid() && forall c :: c in q.committed ==> |c| >= opt.header
  }

  ghost predicate QueuesOk(opt: Options, qs: seq<Queue>) {
    forall i :: 0 <= i < |qs| ==> Whole(opt, qs[i])
  }

  /** A queue that holds nothing and can receive nothing. */
  ghost predicate Gone(s: Sys, id: nat)
    requires Shape(s) && id < |s.qs|
  {
    !s.c.alive[id] && s.qs[id].consumed == |s.qs[id].committed|
  }

  /** The retirement scan so far: what it dropped is gone for good. */
  ghost predicate Scanned(s: Sys, i: nat, kept: seq<nat>)
    requires Shape(s)
  {
    && i <= |s.c.registry|
    && Distinct(kept)
    && (forall x :: x in kept ==> x in s.c.registry[..i])
    && (forall j :: 0 <= j < i ==> s.c.registry[j] in kept || Gone(s, s.c.registry[j]))
  }

  /** Every queue ever created is still registered or gone. */
  ghost predicate Covered(s: Sys)
    requires Shape(s)
  {
    && (forall id: nat :: id < |s.qs| ==> id in s.c.registry || Gone(s, id))
    && (s.c.pc.Retire? || s.c.pc.RetireQuery? ==> Scanned(s, s.c.pc.i, s.c.pc.kept))
    && (s.c.pc.RetireQuery? ==> s.c.pc.i < |s.c.registry| && !s.c.alive[s.c.registry[s.c.pc.i]])
  }

  /** Everything queue `id` had committed when the flag was stored is consumed. */
  ghost predicate Drained(s: Sys, id: nat)
    requires |s.c.mark| <= |s.qs|
  {
    id < |s.c.mark| ==> s.c.mark[id] <= s.qs[id].consumed
  }

  ghost predicate Shutdown(opt: Options, s: Sys)
    requires Shape(s)
  {
    var c := s.c;
    && |c.mark| <= |s.qs|
    && (!c.flag ==> c.mark == [])
    && (forall id :: 0 <= id < |c.mark| ==> c.mark[id] <= |s.qs[id].committed|)
    && (c.shuttingDown ==> c.flag)
    && (c.pc.Check? ==>
          && c.shuttingDown
          && forall j :: 0 <= j < c.pc.i && j < |c.registry| ==> Drained(s, c.registry[j]))
    && (c.pc.Done? ==> c.flag)
    && (c.pc.Done? && opt.waitForDrain ==> forall id: nat :: id < |c.mark| ==> Drained(s, id))
  }

  ghost predicate Inv(opt: Options, s: Sys) {
    opt.Valid() && Shape(s) && QueuesOk(opt, s.qs) && Covered(s) && Shutdown(opt, s)
  }

  // ---- Queues --------------------------------------------------------------

  /** With whole records only, fewer readable bytes than a header means none at all. */
  lemma NoPartialRecord(opt: Options, q: Queue)
    requires opt.Valid() && Whole(opt, q)
    ensures q.Available() < opt.header <==> q.seen == q.consumed
    ensures q.Available() == 0 <==> q.seen == q.consumed
  {
    PosMono(q.committed, q.consumed, q.seen);
    if q.consumed < q.seen {
      assert q.committed[q.consumed] in q.committed;
    }
  }

  lemma QueueStepOk(opt: Options, q: Queue, e: Event, q': Queue)
    requires opt.Valid() && Whole(opt, q) && Step(q, e, q', true)
    requires e.Commit? ==> |e.chunk| >= opt.header
    ensures Whole(opt, q')
    ensures q.committed <= q'.committed && q.consumed <= q'.consumed
    ensures !e.Commit? ==> q'.committed == q.committed
    ensures q'.consumed == if e.Read? then q.consumed + 1 else q.consumed
    ensures (e.Query? || e.Begin?) && e.bytes < opt.header ==> e.bytes == 0 && q'.consumed == |q'.committed|
  {
    StepValid(q, e, q', true);
    if e.Commit? {
      forall c | c in q'.committed ensures |c| >= opt.header {
        assert c in q.committed || c == e.chunk;
      }
    }
    if e.Query? || e.Begin? {
      NoPartialRecord(opt, q');
      NoPartialRecord(opt, q);
    }
  }

  // ---- Shape ---------------------------------------------------------------

  lemma NextKeepsOwners(opt: Options, c: Control, m: Move)
    requires Enabled(opt, c, m) && !m.Register? && !m.Exit?
    ensures Next(opt, c, m).slots == c.slots && Next(opt, c, m).alive == c.alive
  {
  }

  lemma StepOwned(opt: Options, c: Control, m: Move)
    requires Owned(c) && Enabled(opt, c, m)
    ensures Owned(Next(opt, c, m))
  {
    var c' := Next(opt, c, m);
    if m.Register? {
      assert forall t :: t in c'.slots ==> t == m.t || t in c.slots;
    } else if m.Exit? {
      assert forall t :: t in c'.slots ==> t in c.slots && t != m.t && c'.slots[t] == c.slots[t];
    } else {
      NextKeepsOwners(opt, c, m);
    }
  }

  lemma NextLists(opt: Options, c: Control, m: Move)
    requires Enabled(opt, c, m) && !m.EndRetire?
    ensures Next(opt, c, m).registry == if m.Register? then c.registry + [|c.alive|] else c.registry
    ensures Next(opt, c, m).snapshot == c.snapshot || Next(opt, c, m).snapshot == c.registry
  {
  }

  lemma StepLists(opt: Options, s: Sys, m: Move, s': Sys)
    requires Inv(opt, s) && SysStep(opt, s, m, s')
    ensures var c, n := s'.c, |s'.qs|;
      Below(c.registry, n) && Distinct(c.registry) && Below(c.snapshot, n) && Distinct(c.snapshot)
  {
    if m.EndRetire? {
      var c := s.c;
      forall i | 0 <= i < |c.pc.kept| ensures c.pc.kept[i] < |s.qs| {
        assert c.pc.kept[i] in c.registry[..c.pc.i];
      }
    } else {
      NextLists(opt, s.c, m);
    }
  }

  lemma NextSizes(opt: Options, c: Control, m: Move)
    requires Enabled(opt, c, m)
    ensures |Next(opt, c, m).alive| == |c.alive| + (if m.Register? then 1 else 0)
    ensures |Next(opt, c, m).calls| == |c.calls| + (if m.Register? then 1 else 0)
  {
  }

  lemma StepSize(opt: Options, s: Sys, m: Move, s': Sys)
    requires SysStep(opt, s, m, s')
    ensures |s'.qs| == |s.qs| + (if m.Register? then 1 else 0)
  {
  }

  lemma StepShape(opt: Options, s: Sys, m: Move, s': Sys)
    requires Inv(opt, s) && SysStep(opt, s, m, s')
    ensures Shape(s')
  {
    NextSizes(opt, s.c, m);
    StepSize(opt, s, m, s');
    StepOwned(opt, s.c, m);
    StepLists(opt, s, m, s');
  }

  lemma StepQueues(opt: Options, s: Sys, m: Move, s': Sys)
    requires Inv(opt, s) && SysStep(opt, s, m, s')
    ensures QueuesOk(opt, s'.qs)
    ensures |s.qs| <= |s'.qs|
    ensures forall i :: 0 <= i < |s.qs| ==>
              s.qs[i].committed <= s'.qs[i].committed && s.qs[i].consumed <= s'.qs[i].consumed
  {
    if OnQueue(s.c, m) {
      var id := QueueOf(s.c, m);
      QueueStepOk(opt, s.qs[id], m.e, s'.qs[id]);
    }
  }

  lemma DeadStays(opt: Options, c: Control, m: Move, id: nat)
    requires Enabled(opt, c, m) && id < |c.alive| && !c.alive[id]
    ensures id < |Next(opt, c, m).alive| && !Next(opt, c, m).alive[id]
  {
  }

  /** What a step does to one queue: nothing, or one event of its own. */
  lemma StepQueue(opt: Options, s: Sys, m: Move, s': Sys, id: nat)
    requires Inv(opt, s) && SysStep(opt, s, m, s') && id < |s.qs|
    ensures id < |s'.qs|
    ensures s'.qs[id] == s.qs[id] || (OnQueue(s.c, m) && QueueOf(s.c, m) == id)
  {
  }

  /** Nobody commits to a queue whose producer is dead. */
  lemma DeadIsSilent(opt: Options, s: Sys, m: Move, s': Sys, id: nat)
    requires Inv(opt, s) && SysStep(opt, s, m, s') && id < |s.qs| && !s.c.alive[id]
    requires OnQueue(s.c, m) && QueueOf(s.c, m) == id
    ensures !m.e.Commit?
  {
  }

  /** Retired queues stay gone: their producer is dead, so nobody commits to them. */
  lemma GoneStable(opt: Options, s: Sys, m: Move, s': Sys, id: nat)
    requires Inv(opt, s) && SysStep(opt, s, m, s') && Shape(s')
    requires id < |s.qs| && Gone(s, id)
    ensures id < |s'.qs| && Gone(s', id)
  {
    DeadStays(opt, s.c, m, id);
    StepQueue(opt, s, m, s', id);
    if OnQueue(s.c, m) && QueueOf(s.c, m) == id {
      DeadIsSilent(opt, s, m, s', id);
      QueueStepOk(opt, s.qs[id], m.e, s'.qs[id]);
    }
  }

  // ---- Coverage ------------------------------------------------------------

  lemma ScanKeep(s: Sys, i: nat, kept: seq<nat>)
    requires Shape(s) && Scanned(s, i, kept) && i < |s.c.registry|
    ensures Scanned(s, i + 1, kept + [s.c.registry[i]])
    ensures Gone(s, s.c.registry[i]) ==> Scanned(s, i + 1, kept)
  {
    var r := s.c.registry;
    assert r[..i + 1] == r[..i] + [r[i]];
    forall x | x in kept ensures x != r[i] {
      assert x in r[..i];
    }
    var longer := kept + [r[i]];
    assert longer[|kept|] == r[i] && r[..i + 1][i] == r[i];
    forall a, b | 0 <= a < b < |longer| ensures longer[a] != longer[b] {
      if b == |kept| {
        assert kept[a] in kept;
      }
    }
    forall x | x in longer ensures x in r[..i + 1] {
      if x in kept {
        assert x in r[..i];
      }
    }
    forall j | 0 <= j < i + 1 ensures r[j] in longer || Gone(s, r[j]) {
      if j < i && r[j] in kept {
        assert r[j] in longer;
      }
    }
  }

  /** A scan result carries over to a later state with the same registry. */
  lemma ScanStable(opt: Options, s: Sys, m: Move, s': Sys, i: nat, kept: seq<nat>)
    requires Inv(opt, s) && SysStep(opt, s, m, s') && Shape(s')
    requires s'.c.registry == s.c.registry && Scanned(s, i, kept)
    ensures Scanned(s', i, kept)
  {
    forall j | 0 <= j < i ensures s.c.registry[j] in kept || Gone(s', s.c.registry[j]) {
      if s.c.registry[j] !in kept {
        GoneStable(opt, s, m, s', s.c.registry[j]);
      }
    }
  }

  /** One worker move of the retirement scan: a live queue is kept without asking it, a
      dead one exactly if it still holds records. */
  lemma StepScanWorker(opt: Options, s: Sys, m: Move, s': Sys)
    requires Inv(opt, s) && SysStep(opt, s, m, s') && Shape(s')
    requires m.LoadAlive? || (m.OnConsumer? && s.c.pc.RetireQuery?)
    ensures s.c.pc.i < |s.c.registry|
    ensures var i, kept, id := s.c.pc.i, s.c.pc.kept, s.c.registry[s.c.pc.i];
      && (m.LoadAlive? && s.c.alive[id] ==> s'.c.pc == Retire(i + 1, kept + [id]))
      && (m.LoadAlive? && !s.c.alive[id] ==> s'.c.pc == RetireQuery(i, kept))
      && (m.OnConsumer? && s.qs[id].consumed < |s.qs[id].committed| ==> s'.c.pc == Retire(i + 1, kept + [id]))
      && (m.OnConsumer? && s.qs[id].consumed == |s.qs[id].committed| ==> s'.c.pc == Retire(i + 1, kept))
    ensures Scanned(s', s'.c.pc.i, s'.c.pc.kept)
    ensures s'.c.pc.RetireQuery? ==> s'.c.pc.i < |s'.c.registry| && !s'.c.alive[s'.c.registry[s'.c.pc.i]]
  {
    var i, kept := s.c.pc.i, s.c.pc.kept;
    assert s'.c.registry == s.c.registry;
    ScanStable(opt, s, m, s', i, kept);
    if m.OnConsumer? {
      var id := WorkerQueue(s.c);
      QueueStepOk(opt, s.qs[id], m.e, s'.qs[id]);
      NoPartialRecord(opt, s'.qs[id]);
      assert m.e.bytes == 0 ==> Gone(s', id);
    }
    ScanKeep(s', i, kept);
  }

  /** Under the lock, only the worker changes the scan and what it scans. */
  lemma OthersKeepScan(opt: Options, c: Control, m: Move)
    requires Enabled(opt, c, m) && !m.NextConsumer? && !m.LoadAlive? && !m.OnConsumer?
    requires Next(opt, c, m).pc.Retire? || Next(opt, c, m).pc.RetireQuery?
    ensures Next(opt, c, m).pc == c.pc && Next(opt, c, m).registry == c.registry
    ensures !m.Register?
    ensures forall id :: 0 <= id < |c.alive| && !c.alive[id] ==> id < |Next(opt, c, m).alive| && !Next(opt, c, m).alive[id]
  {
  }

  lemma StepScan(opt: Options, s: Sys, m: Move, s': Sys)
    requires Inv(opt, s) && SysStep(opt, s, m, s') && Shape(s')
    requires s'.c.pc.Retire? || s'.c.pc.RetireQuery?
    ensures Scanned(s', s'.c.pc.i, s'.c.pc.kept)
    ensures s'.c.pc.RetireQuery? ==> s'.c.pc.i < |s'.c.registry| && !s'.c.alive[s'.c.registry[s'.c.pc.i]]
  {
    if m.NextConsumer? {
      assert s'.c.registry[..0] == [];
    } else if m.LoadAlive? || m.OnConsumer? {
      StepScanWorker(opt, s, m, s');
    } else {
      OthersKeepScan(opt, s.c, m);
      ScanStable(opt, s, m, s', s.c.pc.i, s.c.pc.kept);
    }
  }

  lemma StepCovered(opt: Options, s: Sys, m: Move, s': Sys)
    requires Inv(opt, s) && SysStep(opt, s, m, s') && Shape(s')
    ensures Covered(s')
  {
    forall id: nat | id < |s'.qs| ensures id in s'.c.registry || Gone(s', id) {
      if id < |s.qs| {
        if id in s.c.registry {
          if m.EndRetire? {
            var j :| 0 <= j < |s.c.registry| && s.c.registry[j] == id;
          }
        } else {
          GoneStable(opt, s, m, s', id);
        }
      } else {
        assert s'.c.registry[|s.c.registry|] == id;
      }
    }
    if s'.c.pc.Retire? || s'.c.pc.RetireQuery? {
      StepScan(opt, s, m, s');
    }
  }

  // ---- Shutdown ------------------------------------------------------------

  lemma DrainedStable(opt: Options, s: Sys, m: Move, s': Sys, id: nat)
    requires Inv(opt, s) && SysStep(opt, s, m, s') && s.c.flag
    requires Drained(s, id)
    ensures |s'.c.mark| <= |s'.qs| && Drained(s', id)
  {
    StepQueues(opt, s, m, s');
  }

  /** When the pending check has passed every registered consumer, every queue
      ever created is drained: the others were retired empty. */
  lemma CheckComplete(opt: Options, s: Sys, id: nat)
    requires Inv(opt, s) && s.c.pc.Check? && s.c.pc.i >= |s.c.registry| && id < |s.c.mark|
    ensures Drained(s, id)
  {
    if id in s.c.registry {
      var j :| 0 <= j < |s.c.registry| && s.c.registry[j] == id;
      assert Drained(s, s.c.registry[j]);
    } else {
      assert Gone(s, id);
    }
  }

  lemma CheckControl(opt: Options, c: Control, m: Move)
    requires Enabled(opt, c, m) && Next(opt, c, m).pc.Check?
    ensures Next(opt, c, m).registry == c.registry
    ensures if m.OnConsumer? then c.pc.Check? && Next(opt, c, m).pc.i == c.pc.i + 1 && c.pc.i < |c.registry| && m.e.Query? && m.e.bytes == 0
            else if m.Decide? then Next(opt, c, m).pc.i == 0 && c.shuttingDown
            else Next(opt, c, m).pc == c.pc
    ensures (c.pc.Check? ==> c.shuttingDown) ==> Next(opt, c, m).shuttingDown
  {
  }

  lemma StepCheck(opt: Options, s: Sys, m: Move, s': Sys)
    requires Inv(opt, s) && SysStep(opt, s, m, s') && Shape(s')
    requires s'.c.pc.Check? && |s'.c.mark| <= |s'.qs| && s'.c.mark == s.c.mark && s.c.flag
    ensures forall j :: 0 <= j < s'.c.pc.i && j < |s'.c.registry| ==> Drained(s', s'.c.registry[j])
  {
    CheckControl(opt, s.c, m);
    forall j | 0 <= j < s'.c.pc.i && j < |s'.c.registry| ensures Drained(s', s'.c.registry[j]) {
      if j < s.c.pc.i {
        DrainedStable(opt, s, m, s', s.c.registry[j]);
      } else {
        var id := WorkerQueue(s.c);
        QueueStepOk(opt, s.qs[id], m.e, s'.qs[id]);
        assert s'.qs[id].consumed == |s'.qs[id].committed| && s'.qs[id].committed == s.qs[id].committed;
      }
    }
  }

  /** How the flag, its mark and the stop move together. */
  lemma FlagControl(opt: Options, c: Control, m: Move)
    requires Enabled(opt, c, m) && (c.shuttingDown ==> c.flag) && (c.pc.Check? ==> c.shuttingDown) && (c.pc.Done? ==> c.flag)
    ensures var c' := Next(opt, c, m);
      && (c'.shuttingDown ==> c'.flag) && (c'.pc.Check? ==> c'.shuttingDown) && (c'.pc.Done? ==> c'.flag)
      && (if m.StoreFlag? && !c.flag then c'.flag && c'.mark == m.counts && c'.pc == c.pc
          else c'.flag == c.flag && c'.mark == c.mark)
      && (c'.pc.Done? && opt.waitForDrain ==> c.pc.Done? || (m.EndCheck? && c.pc.Check? && c.pc.i >= |c.registry|))
  {
  }

  lemma StepMark(opt: Options, s: Sys, m: Move, s': Sys)
    requires Inv(opt, s) && SysStep(opt, s, m, s')
    ensures |s'.c.mark| <= |s'.qs| && (!s'.c.flag ==> s'.c.mark == [])
    ensures forall id :: 0 <= id < |s'.c.mark| ==> s'.c.mark[id] <= |s'.qs[id].committed|
  {
    FlagControl(opt, s.c, m);
    StepQueues(opt, s, m, s');
    if m.StoreFlag? && !s.c.flag {
      assert s'.c.mark == Counts(s.qs);
    }
  }

  lemma StepDone(opt: Options, s: Sys, m: Move, s': Sys, id: nat)
    requires Inv(opt, s) && SysStep(opt, s, m, s') && s'.c.pc.Done? && opt.waitForDrain && s'.c.mark == s.c.mark && s.c.flag
    requires id < |s.c.mark| && (s.c.pc.Done? || (s.c.pc.Check? && s.c.pc.i >= |s.c.registry|))
    ensures |s'.c.mark| <= |s'.qs| && Drained(s', id)
  {
    if !s.c.pc.Done? {
      CheckComplete(opt, s, id);
    }
    DrainedStable(opt, s, m, s', id);
  }

  lemma StepShutdown(opt: Options, s: Sys, m: Move, s': Sys)
    requires Inv(opt, s) && SysStep(opt, s, m, s') && Shape(s')
    ensures Shutdown(opt, s')
  {
    FlagControl(opt, s.c, m);
    StepMark(opt, s, m, s');
    if s'.c.pc.Check? {
      CheckControl(opt, s.c, m);
      StepCheck(opt, s, m, s');
    }
    if s'.c.pc.Done? && opt.waitForDrain {
      forall id: nat | id < |s'.c.mark| ensures Drained(s', id) {
        StepDone(opt, s, m, s', id);
      }
    }
  }

  /** Every move of every thread keeps the protocol invariant. */
  lemma StepInv(opt: Options, s: Sys, m: Move, s': Sys)
    requires Inv(opt, s) && SysStep(opt, s, m, s')
    ensures Inv(opt, s')
  {
    StepShape(opt, s, m, s');
    StepQueues(opt, s, m, s');
    StepCovered(opt, s, m, s');
    StepShutdown(opt, s, m, s');
  }

  lemma {:induction false} RunInv(opt: Options, states: seq<Sys>, moves: seq<Move>, n: nat)
    requires opt.Valid() && Run(opt, states, moves) && n < |states|
    ensures Inv(opt, states[n])
  {
    if n > 0 {
      RunInv(opt, states, moves, n - 1);
      assert SysStep(opt, states[n - 1], moves[n - 1], states[n]);
      StepInv(opt, states[n - 1], moves[n - 1], states[n]);
    }
  }
}
