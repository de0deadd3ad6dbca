/** Bounded waiting and progress of the worker, pass by pass.

    A pass is one snapshot-and-drain of the loop in `run`. The batch cap keeps
    any one queue to 32 records per pass, and no interleaving with the producers
    can delay a record beyond the passes that the cap accounts for. */
module Fairness {
  import opened Fifo
  import opened Protocol
  import opened ProtocolProofs
  import opened ProtocolTheorems

  function Min(a: nat, b: nat): nat {
    if a <= b then a else b
  }

  predicate InDrain(c: Control) {
    c.pc.Drain? || c.pc.Busy?
  }

  /** Records queue `id` is known to have given up in the pass under way, out of
      `k` per pass. */
  function Share(c: Control, id: nat, k: nat): nat {
    if !InDrain(c) then 0
    else if id in c.snapshot[..Min(c.pc.i, |c.snapshot|)] then k
    else if c.pc.i < |c.snapshot| && c.snapshot[c.pc.i] == id then Min(c.pc.b, k)
    else 0
  }

  /** `k` records per pass, for the two rates of interest. */
  function Times(k: nat, passes: nat): nat {
    if k == 1 then passes else MAX_BATCH_PER_CONSUMER * passes
  }

  predicate Rate(k: nat) {
    k == 1 || k == MAX_BATCH_PER_CONSUMER
  }

  /** Record `r` of queue `id` is consumed, or the queue has moved on by `k`
      records for each pass since pass `p0`, when `c0` were consumed. */
  ghost predicate Progress(s: Sys, id: nat, r: nat, c0: nat, p0: nat, k: nat) {
    && id < |s.qs| && r < |s.qs[id].committed| && p0 <= s.c.passes
    && (s.qs[id].consumed <= r ==>
          && (InDrain(s.c) ==> id in s.c.snapshot)
          && s.qs[id].consumed >= c0 + Times(k, s.c.passes - p0) + Share(s.c, id, k))
  }

  /** The rate of 32 per pass is for records that decode, from the first unread one on. */
  ghost predicate Decode(opt: Options, s: Sys, id: nat, r: nat, c0: nat, k: nat)
    requires id < |s.qs| && r < |s.qs[id].committed|
  {
    k == 1 || forall j :: c0 <= j <= r ==> opt.decodes(s.qs[id].committed[j])
  }

  /** Moving to the next consumer of the snapshot. */
  lemma ShareNext(c: Control, id: nat, k: nat)
    requires InDrain(c) && c.pc.i < |c.snapshot|
    ensures var c' := c.(pc := Drain(c.pc.i + 1, 0));
      && (c.snapshot[c.pc.i] == id ==> Share(c', id, k) == k)
      && (c.snapshot[c.pc.i] != id ==> Share(c', id, k) <= Share(c, id, k) || id in c.snapshot[..c.pc.i])
      && (id in c.snapshot[..c.pc.i] ==> Share(c', id, k) == k == Share(c, id, k))
  {
    assert c.snapshot[..c.pc.i + 1] == c.snapshot[..c.pc.i] + [c.snapshot[c.pc.i]];
    if c.snapshot[c.pc.i] == id {
      assert c.snapshot[..c.pc.i + 1][c.pc.i] == id;
    }
  }

  lemma ProgressSnapshot(opt: Options, s: Sys, s': Sys, id: nat, r: nat, c0: nat, p0: nat, k: nat)
    requires Inv(opt, s) && SysStep(opt, s, TakeSnapshot, s') && Progress(s, id, r, c0, p0, k)
    ensures Progress(s', id, r, c0, p0, k)
  {
    if s.qs[id].consumed <= r {
      assert id in s.c.registry || Gone(s, id);
    }
    assert s'.c.snapshot[..0] == [];
  }

  lemma ProgressNext(opt: Options, s: Sys, s': Sys, id: nat, r: nat, c0: nat, p0: nat, k: nat)
    requires Inv(opt, s) && SysStep(opt, s, NextConsumer, s') && Progress(s, id, r, c0, p0, k) && Rate(k)
    ensures Progress(s', id, r, c0, p0, k)
  {
    if s.c.pc.i < |s.c.snapshot| {
      ShareNext(s.c, id, k);
    } else {
      assert s.c.snapshot[..|s.c.snapshot|] == s.c.snapshot;
    }
  }

  /** A queue found empty at its turn has nothing up to `r` left. */
  lemma ProgressBegin(opt: Options, s: Sys, m: Move, s': Sys, id: nat, r: nat, c0: nat, p0: nat, k: nat)
    requires Inv(opt, s) && SysStep(opt, s, m, s') && m.OnConsumer? && s.c.pc.Drain?
    requires Progress(s, id, r, c0, p0, k) && Rate(k)
    ensures Progress(s', id, r, c0, p0, k)
  {
    var w := WorkerQueue(s.c);
    QueueStepOk(opt, s.qs[w], m.e, s'.qs[w]);
    ShareNext(s.c, id, k);
  }

  lemma ProgressReadOther(opt: Options, s: Sys, m: Move, s': Sys, id: nat, r: nat, c0: nat, p0: nat, k: nat)
    requires Inv(opt, s) && SysStep(opt, s, m, s') && m.OnConsumer? && s.c.pc.Busy?
    requires Progress(s, id, r, c0, p0, k) && WorkerQueue(s.c) != id
    ensures Progress(s', id, r, c0, p0, k)
  {
    ShareNext(s.c, id, k);
    assert s'.qs[id] == s.qs[id];
    assert s'.c.snapshot == s.c.snapshot && s'.c.passes == s.c.passes;
  }

  lemma ProgressReadOwn(opt: Options, s: Sys, m: Move, s': Sys, id: nat, r: nat, c0: nat, p0: nat, k: nat)
    requires Inv(opt, s) && SysStep(opt, s, m, s') && m.OnConsumer? && s.c.pc.Busy?
    requires Progress(s, id, r, c0, p0, k) && Rate(k) && Decode(opt, s, id, r, c0, k) && WorkerQueue(s.c) == id
    ensures Progress(s', id, r, c0, p0, k)
  {
    QueueStepOk(opt, s.qs[id], m.e, s'.qs[id]);
    ShareNext(s.c, id, k);
    assert id !in s.c.snapshot[..s.c.pc.i];
    assert s'.c.snapshot == s.c.snapshot && s'.c.passes == s.c.passes;
  }

  lemma ProgressRead(opt: Options, s: Sys, m: Move, s': Sys, id: nat, r: nat, c0: nat, p0: nat, k: nat)
    requires Inv(opt, s) && SysStep(opt, s, m, s') && m.OnConsumer? && s.c.pc.Busy?
    requires Progress(s, id, r, c0, p0, k) && Rate(k) && Decode(opt, s, id, r, c0, k)
    ensures Progress(s', id, r, c0, p0, k)
  {
    if WorkerQueue(s.c) == id {
      ProgressReadOwn(opt, s, m, s', id, r, c0, p0, k);
    } else {
      ProgressReadOther(opt, s, m, s', id, r, c0, p0, k);
    }
  }

  /** Moves that are not part of a drain keep the pass count and the pass's share. */
  lemma OutsideDrain(opt: Options, c: Control, m: Move, id: nat, k: nat)
    requires Enabled(opt, c, m) && !m.TakeSnapshot? && !m.NextConsumer? && !(m.OnConsumer? && InDrain(c))
    ensures var c' := Next(opt, c, m);
      && c'.passes == c.passes && c'.snapshot == c.snapshot
      && (InDrain(c') <==> InDrain(c)) && (InDrain(c) ==> c'.pc == c.pc)
      && Share(c', id, k) == Share(c, id, k)
  {
  }

  lemma ProgressOutside(opt: Options, s: Sys, m: Move, s': Sys, id: nat, r: nat, c0: nat, p0: nat, k: nat)
    requires Inv(opt, s) && SysStep(opt, s, m, s') && Progress(s, id, r, c0, p0, k)
    requires !m.TakeSnapshot? && !m.NextConsumer? && !(m.OnConsumer? && InDrain(s.c))
    ensures Progress(s', id, r, c0, p0, k)
  {
    StepQueues(opt, s, m, s');
    OutsideDrain(opt, s.c, m, id, k);
  }

  lemma ProgressStep(opt: Options, s: Sys, m: Move, s': Sys, id: nat, r: nat, c0: nat, p0: nat, k: nat)
    requires Inv(opt, s) && SysStep(opt, s, m, s') && Rate(k)
    requires Progress(s, id, r, c0, p0, k) && Decode(opt, s, id, r, c0, k)
    ensures Progress(s', id, r, c0, p0, k) && Decode(opt, s', id, r, c0, k)
  {
    StepQueues(opt, s, m, s');
    if m.TakeSnapshot? {
      ProgressSnapshot(opt, s, s', id, r, c0, p0, k);
    } else if m.NextConsumer? {
      ProgressNext(opt, s, s', id, r, c0, p0, k);
    } else if m.OnConsumer? && s.c.pc.Drain? {
      ProgressBegin(opt, s, m, s', id, r, c0, p0, k);
    } else if m.OnConsumer? && s.c.pc.Busy? {
      ProgressRead(opt, s, m, s', id, r, c0, p0, k);
    } else {
      ProgressOutside(opt, s, m, s', id, r, c0, p0, k);
    }
  }

  lemma {:induction false} ProgressRun(opt: Options, states: seq<Sys>, moves: seq<Move>, a: nat, b: nat,
                                       id: nat, r: nat, c0: nat, p0: nat, k: nat)
    requires opt.Valid() && Run(opt, states, moves) && a <= b < |states| && Rate(k)
    requires Progress(states[a], id, r, c0, p0, k) && Decode(opt, states[a], id, r, c0, k)
    ensures Progress(states[b], id, r, c0, p0, k) && Decode(opt, states[b], id, r, c0, k)
    decreases b
  {
    if a < b {
      ProgressRun(opt, states, moves, a, b - 1, id, r, c0, p0, k);
      RunInv(opt, states, moves, b - 1);
      assert SysStep(opt, states[b - 1], moves[b - 1], states[b]);
      ProgressStep(opt, states[b - 1], moves[b - 1], states[b], id, r, c0, p0, k);
    }
  }

  /** A record with `ahead` unread records before it is consumed within
      `ahead / 32 + 1` passes if it and those before it decode. */
  lemma BoundedWaiting(opt: Options, states: seq<Sys>, moves: seq<Move>, a: nat, b: nat, id: nat, ahead: nat)
    requires opt.Valid() && Run(opt, states, moves) && a <= b < |states|
    requires !InDrain(states[a].c) && id < |states[a].qs|
    requires states[a].qs[id].consumed + ahead < |states[a].qs[id].committed|
    requires forall j :: states[a].qs[id].consumed <= j <= states[a].qs[id].consumed + ahead ==> opt.decodes(states[a].qs[id].committed[j])
    requires states[b].c.passes >= states[a].c.passes + ahead / 32 + 1
    ensures id < |states[b].qs| && states[b].qs[id].consumed > states[a].qs[id].consumed + ahead
  {
    var c0, p0 := states[a].qs[id].consumed, states[a].c.passes;
    ProgressRun(opt, states, moves, a, b, id, c0 + ahead, c0, p0, MAX_BATCH_PER_CONSUMER);
    assert ahead < MAX_BATCH_PER_CONSUMER * (ahead / MAX_BATCH_PER_CONSUMER + 1);
  }

  /** In any case, decodable or not, it is consumed within `ahead + 1` passes. */
  lemma BoundedWaitingAnyCase(opt: Options, states: seq<Sys>, moves: seq<Move>, a: nat, b: nat, id: nat, ahead: nat)
    requires opt.Valid() && Run(opt, states, moves) && a <= b < |states|
    requires !InDrain(states[a].c) && id < |states[a].qs|
    requires states[a].qs[id].consumed + ahead < |states[a].qs[id].committed|
    requires states[b].c.passes >= states[a].c.passes + ahead + 1
    ensures id < |states[b].qs| && states[b].qs[id].consumed > states[a].qs[id].consumed + ahead
  {
    var c0, p0 := states[a].qs[id].consumed, states[a].c.passes;
    ProgressRun(opt, states, moves, a, b, id, c0 + ahead, c0, p0, 1);
  }

  // ---- The cap -----------------------------------------------------------------

  /** At most 32 records of a queue per pass, and the batch counter stays in range. */
  ghost predicate Capped(s: Sys, id: nat, c0: nat, p0: nat) {
    && id < |s.qs| && p0 <= s.c.passes
    && (s.c.pc.Busy? ==> s.c.pc.b < MAX_BATCH_PER_CONSUMER)
    && s.qs[id].consumed <= c0 + MAX_BATCH_PER_CONSUMER * (s.c.passes - p0) + Share(s.c, id, MAX_BATCH_PER_CONSUMER)
  }

  lemma CappedDrain(opt: Options, s: Sys, m: Move, s': Sys, id: nat, c0: nat, p0: nat)
    requires Inv(opt, s) && SysStep(opt, s, m, s') && Capped(s, id, c0, p0)
    requires m.OnConsumer? && InDrain(s.c)
    ensures Capped(s', id, c0, p0)
  {
    var w := WorkerQueue(s.c);
    QueueStepOk(opt, s.qs[w], m.e, s'.qs[w]);
    ShareNext(s.c, id, MAX_BATCH_PER_CONSUMER);
    if w == id {
      assert id !in s.c.snapshot[..s.c.pc.i];
    }
  }

  lemma CappedStep(opt: Options, s: Sys, m: Move, s': Sys, id: nat, c0: nat, p0: nat)
    requires Inv(opt, s) && SysStep(opt, s, m, s') && Capped(s, id, c0, p0)
    ensures Capped(s', id, c0, p0)
  {
    if m.OnConsumer? && InDrain(s.c) {
      CappedDrain(opt, s, m, s', id, c0, p0);
    } else {
      DispatchUnchanged(opt, s, m, s');
      if m.NextConsumer? && s.c.pc.i < |s.c.snapshot| {
        ShareNext(s.c, id, MAX_BATCH_PER_CONSUMER);
      }
    }
  }

  lemma {:induction false} CappedRun(opt: Options, states: seq<Sys>, moves: seq<Move>, a: nat, b: nat, id: nat)
    requires opt.Valid() && Run(opt, states, moves) && a <= b < |states|
    requires !InDrain(states[a].c) && id < |states[a].qs|
    ensures Capped(states[b], id, states[a].qs[id].consumed, states[a].c.passes)
    decreases b
  {
    if a < b {
      CappedRun(opt, states, moves, a, b - 1, id);
      RunInv(opt, states, moves, b - 1);
      assert SysStep(opt, states[b - 1], moves[b - 1], states[b]);
      CappedStep(opt, states[b - 1], moves[b - 1], states[b], id, states[a].qs[id].consumed, states[a].c.passes);
    }
  }

  /** From a point of a run outside a drain on, a queue gives up at most 32 records for
      each pass completed since and for the one under way, whatever its backlog. */
  lemma BatchCap(opt: Options, states: seq<Sys>, moves: seq<Move>, a: nat, b: nat, id: nat)
    requires opt.Valid() && Run(opt, states, moves) && a <= b < |states|
    requires !InDrain(states[a].c) && id < |states[a].qs|
    ensures id < |states[b].qs| && states[a].c.passes <= states[b].c.passes
    ensures var passes := states[b].c.passes - states[a].c.passes + if InDrain(states[b].c) then 1 else 0;
      states[b].qs[id].consumed <= states[a].qs[id].consumed + 32 * passes
  {
    CappedRun(opt, states, moves, a, b, id);
  }

  // ---- The drain makes progress ---------------------------------------------------

  predicate Pending(q: Queue) {
    q.consumed < |q.committed|
  }

  function Lags(qs: seq<Queue>): (lags: seq<nat>)
    ensures |lags| == |qs|
    ensures forall i :: 0 <= i < |qs| ==> lags[i] == if Pending(qs[i]) then |qs[i].committed| - qs[i].consumed else 0
  {
    seq(|qs|, i requires 0 <= i < |qs| => if Pending(qs[i]) then |qs[i].committed| - qs[i].consumed else 0)
  }

  /** Records committed and not consumed, over all queues. */
  function Backlog(qs: seq<Queue>): nat {
    Sum(Lags(qs))
  }

  lemma {:induction false} SumBounds(xs: seq<nat>)
    ensures Sum(xs) > 0 ==> exists i :: 0 <= i < |xs| && xs[i] > 0
    ensures forall i :: 0 <= i < |xs| ==> xs[i] <= Sum(xs)
  {
    if xs != [] {
      SumBounds(xs[1..]);
      if Sum(xs[1..]) > 0 {
        var i :| 0 <= i < |xs[1..]| && xs[1..][i] > 0;
        assert xs[i + 1] > 0;
      }
      forall i | 0 <= i < |xs| ensures xs[i] <= Sum(xs) {
        if i > 0 {
          assert xs[1..][i - 1] <= Sum(xs[1..]);
        }
      }
    }
  }

  lemma {:induction false} SumDominates(xs: seq<nat>, ys: seq<nat>)
    requires |xs| == |ys| && forall i :: 0 <= i < |xs| ==> xs[i] <= ys[i]
    ensures Sum(xs) <= Sum(ys)
    ensures (exists i :: 0 <= i < |xs| && xs[i] < ys[i]) ==> Sum(xs) < Sum(ys)
  {
    if xs != [] {
      SumDominates(xs[1..], ys[1..]);
      if i :| 0 <= i < |xs| && xs[i] < ys[i] {
        if i > 0 {
          assert xs[1..][i - 1] < ys[1..][i - 1];
        }
      }
    }
  }

  /** Once producers have stopped, a pass that started with something pending
      ends with strictly less pending, even if every record fails to decode. */
  lemma DrainShrinks(opt: Options, states: seq<Sys>, moves: seq<Move>, a: nat, b: nat)
    requires opt.Valid() && Run(opt, states, moves) && a <= b < |states|
    requires !InDrain(states[a].c) && states[b].c.passes > states[a].c.passes
    requires |states[b].qs| == |states[a].qs|
    requires forall id :: 0 <= id < |states[a].qs| ==> states[b].qs[id].committed == states[a].qs[id].committed
    requires Backlog(states[a].qs) > 0
    ensures Backlog(states[b].qs) < Backlog(states[a].qs)
  {
    var p, q := states[a].qs, states[b].qs;
    forall id | 0 <= id < |p| ensures p[id].consumed <= q[id].consumed {
      RunGrows(opt, states, moves, a, b, id);
    }
    SumBounds(Lags(p));
    var id :| 0 <= id < |p| && Lags(p)[id] > 0;
    BoundedWaitingAnyCase(opt, states, moves, a, b, id, 0);
    assert Lags(q)[id] < Lags(p)[id];
    SumDominates(Lags(q), Lags(p));
  }

  /** With producers stopped, as many passes as there were records pending leave
      every queue empty. */
  lemma DrainConverges(opt: Options, states: seq<Sys>, moves: seq<Move>, a: nat, b: nat, id: nat)
    requires opt.Valid() && Run(opt, states, moves) && a <= b < |states|
    requires !InDrain(states[a].c) && id < |states[a].qs|
    requires states[b].c.passes >= states[a].c.passes + Backlog(states[a].qs)
    requires id < |states[b].qs| && states[b].qs[id].committed == states[a].qs[id].committed
    ensures states[b].qs[id].consumed == |states[b].qs[id].committed|
  {
    var q := states[a].qs[id];
    RunInv(opt, states, moves, a);
    RunInv(opt, states, moves, b);
    RunGrows(opt, states, moves, a, b, id);
    if Pending(q) {
      SumBounds(Lags(states[a].qs));
      BoundedWaitingAnyCase(opt, states, moves, a, b, id, |q.committed| - q.consumed - 1);
    }
  }

  /** With every queue empty, the pending check goes through to the end and stops the worker. */
  lemma EmptyCheckStops(opt: Options, s: Sys, m: Move, s': Sys)
    requires Inv(opt, s) && SysStep(opt, s, m, s') && s.c.pc.Check?
    requires m.OnConsumer? || m.EndCheck?
    requires forall id :: 0 <= id < |s.qs| ==> s.qs[id].consumed == |s.qs[id].committed|
    ensures s'.c.pc.Done? || s'.c.pc == Check(s.c.pc.i + 1)
  {
    if m.OnConsumer? {
      var w := WorkerQueue(s.c);
      QueueStepOk(opt, s.qs[w], m.e, s'.qs[w]);
      NoPartialRecord(opt, s'.qs[w]);
    }
  }
}
