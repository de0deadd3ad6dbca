/** What the backend protocol does in the end, beside what it never does: dead queues
    leave the registry, the flag and the drop of a producer take effect, a worker without
    draining stops at once, and stopping is final. */
module ProtocolProgress {
  import opened Fifo
  import opened Protocol
  import opened ProtocolProofs
  import opened ProtocolTheorems
  import opened Fairness

  predicate InScan(c: Control) {
    c.pc.Retire? || c.pc.RetireQuery?
  }

  // ---- What is gone is retired -----------------------------------------------------------

  /** Queue `id` is dead and empty, the scan under way has not kept it, and once a scan
      has been completed it is out of the registry. */
  ghost predicate Leaving(s: Sys, id: nat, out: bool) {
    && id < |s.qs| && Shape(s) && Gone(s, id)
    && (InScan(s.c) ==> id !in s.c.pc.kept)
    && (out ==> id !in s.c.registry)
  }

  lemma LeavingOnConsumer(opt: Options, s: Sys, m: Move, s': Sys, id: nat, out: bool)
    requires Inv(opt, s) && SysStep(opt, s, m, s') && Leaving(s, id, out) && m.OnConsumer? && s.c.pc.RetireQuery?
    ensures InScan(s'.c) ==> id !in s'.c.pc.kept
    ensures s'.c.registry == s.c.registry
  {
    var w := WorkerQueue(s.c);
    QueueStepOk(opt, s.qs[w], m.e, s'.qs[w]);
    if w == id {
      NoPartialRecord(opt, s'.qs[w]);
    }
  }

  lemma LeavingControl(opt: Options, c: Control, m: Move, id: nat)
    requires Enabled(opt, c, m) && !(m.OnConsumer? && c.pc.RetireQuery?)
    requires id < |c.alive| && !c.alive[id] && (InScan(c) ==> id !in c.pc.kept)
    ensures InScan(Next(opt, c, m)) ==> id !in Next(opt, c, m).pc.kept
    ensures id !in c.registry || m.EndRetire? ==> id !in Next(opt, c, m).registry
  {
  }

  lemma LeavingStep(opt: Options, s: Sys, m: Move, s': Sys, id: nat, out: bool)
    requires Inv(opt, s) && SysStep(opt, s, m, s') && Leaving(s, id, out)
    ensures Leaving(s', id, out || m.EndRetire?)
  {
    StepShape(opt, s, m, s');
    GoneStable(opt, s, m, s', id);
    if m.OnConsumer? && s.c.pc.RetireQuery? {
      LeavingOnConsumer(opt, s, m, s', id, out);
    } else {
      LeavingControl(opt, s.c, m, id);
    }
  }

  lemma {:induction false} LeavingRun(opt: Options, states: seq<Sys>, moves: seq<Move>, a: nat, n: nat, b: nat, id: nat)
    requires opt.Valid() && Run(opt, states, moves) && a <= n < |moves| && a <= b < |states|
    requires moves[n].EndRetire? && Leaving(states[a], id, false)
    ensures Leaving(states[b], id, n < b)
    decreases b
  {
    if a < b {
      LeavingRun(opt, states, moves, a, n, b - 1, id);
      RunInv(opt, states, moves, b - 1);
      assert SysStep(opt, states[b - 1], moves[b - 1], states[b]);
      LeavingStep(opt, states[b - 1], moves[b - 1], states[b], id, n < b - 1);
    }
  }

  /** A queue whose producer is dead and whose records are all consumed is out of the
      registry after the next completed scan, and stays out. */
  lemma GoneIsRetired(opt: Options, states: seq<Sys>, moves: seq<Move>, a: nat, n: nat, b: nat, id: nat)
    requires opt.Valid() && Run(opt, states, moves) && a <= n < |moves| && n < b < |states|
    requires !InScan(states[a].c) && id < |states[a].qs| && id < |states[a].c.alive|
    requires !states[a].c.alive[id] && states[a].qs[id].consumed == |states[a].qs[id].committed|
    requires moves[n].EndRetire?
    ensures id !in states[b].c.registry
  {
    RunInv(opt, states, moves, a);
    LeavingRun(opt, states, moves, a, n, b, id);
  }

  // ---- Registration and exit ---------------------------------------------------------------

  /** A queue is alive exactly as long as some thread owns it. */
  ghost predicate AliveOwned(c: Control) {
    forall id :: 0 <= id < |c.alive| ==> (c.alive[id] <==> exists t :: t in c.slots && c.slots[t] == id)
  }

  lemma AliveOwnedRegister(opt: Options, c: Control, t: nat)
    requires Owned(c) && AliveOwned(c) && Enabled(opt, c, Register(t))
    ensures AliveOwned(Next(opt, c, Register(t)))
  {
    var c' := Next(opt, c, Register(t));
    assert t in c'.slots && c'.slots[t] == |c.alive|;
    forall u | u in c.slots ensures u in c'.slots && c'.slots[u] == c.slots[u] {
    }
  }

  lemma AliveOwnedExit(opt: Options, c: Control, t: nat)
    requires Owned(c) && AliveOwned(c) && Enabled(opt, c, Exit(t))
    ensures AliveOwned(Next(opt, c, Exit(t)))
  {
    var c' := Next(opt, c, Exit(t));
    forall u | u in c.slots && u != t ensures u in c'.slots && c'.slots[u] == c.slots[u] && c.slots[u] != c.slots[t] {
    }
  }

  lemma AliveOwnedStep(opt: Options, c: Control, m: Move)
    requires Owned(c) && AliveOwned(c) && Enabled(opt, c, m)
    ensures AliveOwned(Next(opt, c, m))
  {
    if m.Register? {
      AliveOwnedRegister(opt, c, m.t);
    } else if m.Exit? {
      AliveOwnedExit(opt, c, m.t);
    } else {
      NextKeepsOwners(opt, c, m);
    }
  }

  /** So a thread's exit kills its queue, and nothing else does. */
  lemma {:induction false} AliveIffOwned(opt: Options, states: seq<Sys>, moves: seq<Move>, n: nat)
    requires opt.Valid() && Run(opt, states, moves) && n < |states|
    ensures AliveOwned(states[n].c)
  {
    if n > 0 {
      AliveIffOwned(opt, states, moves, n - 1);
      RunInv(opt, states, moves, n - 1);
      assert SysStep(opt, states[n - 1], moves[n - 1], states[n]);
      AliveOwnedStep(opt, states[n - 1].c, moves[n - 1]);
    }
  }

  ghost predicate Ascending(xs: seq<nat>, n: nat) {
    && (forall i, j :: 0 <= i < j < |xs| ==> xs[i] < xs[j])
    && (forall i :: 0 <= i < |xs| ==> xs[i] < n)
  }

  /** What a scan would leave if it kept everything from here on. */
  function Prospect(c: Control): seq<nat> {
    if InScan(c) && c.pc.i <= |c.registry| then c.pc.kept + c.registry[c.pc.i..] else c.registry
  }

  /** The registry, each snapshot of it and what a scan leaves are in order of registration. */
  ghost predicate InOrderOfRegistration(c: Control) {
    && Ascending(c.registry, |c.alive|) && Ascending(c.snapshot, |c.alive|) && Ascending(Prospect(c), |c.alive|)
    && (InScan(c) ==> c.pc.i <= |c.registry|)
  }

  lemma KeepOrDrop(kept: seq<nat>, xs: seq<nat>, i: nat, n: nat)
    requires i < |xs| && Ascending(kept + xs[i..], n)
    ensures Ascending(kept + [xs[i]] + xs[i + 1..], n) && Ascending(kept + xs[i + 1..], n)
  {
    var all, less := kept + xs[i..], kept + xs[i + 1..];
    assert kept + [xs[i]] + xs[i + 1..] == all;
    forall j, k | 0 <= j < k < |less| ensures less[j] < less[k] {
      assert less[j] == all[if j < |kept| then j else j + 1] && less[k] == all[if k < |kept| then k else k + 1];
    }
    forall j | 0 <= j < |less| ensures less[j] < n {
      assert less[j] == all[if j < |kept| then j else j + 1];
    }
  }

  /** The steps of a scan. */
  lemma OrderScan(opt: Options, c: Control, m: Move)
    requires InOrderOfRegistration(c) && Enabled(opt, c, m) && InScan(c) && (m.LoadAlive? || m.OnConsumer?)
    ensures InOrderOfRegistration(Next(opt, c, m))
  {
    KeepOrDrop(c.pc.kept, c.registry, c.pc.i, |c.alive|);
  }

  lemma OrderElsewhere(opt: Options, c: Control, m: Move)
    requires Enabled(opt, c, m) && !(InScan(c) && (m.LoadAlive? || m.OnConsumer?)) && !m.Register? && !m.NextConsumer? && !m.EndRetire?
    ensures var c' := Next(opt, c, m);
      && c'.registry == c.registry && |c'.alive| == |c.alive| && (c'.snapshot == c.snapshot || c'.snapshot == c.registry)
      && (InScan(c) <==> InScan(c')) && (InScan(c) ==> c'.pc == c.pc)
  {
  }

  lemma OrderEndRetire(opt: Options, c: Control)
    requires InOrderOfRegistration(c) && Enabled(opt, c, EndRetire)
    ensures InOrderOfRegistration(Next(opt, c, EndRetire))
  {
    assert c.pc.kept + c.registry[c.pc.i..] == c.pc.kept;
  }

  lemma OrderNextConsumer(opt: Options, c: Control)
    requires InOrderOfRegistration(c) && Enabled(opt, c, NextConsumer)
    ensures InOrderOfRegistration(Next(opt, c, NextConsumer))
  {
    var c' := Next(opt, c, NextConsumer);
    assert c'.registry == c.registry && c'.snapshot == c.snapshot && c'.alive == c.alive && !InScan(c);
    if InScan(c') {
      assert c'.pc == Retire(0, []) && [] + c.registry[0..] == c.registry;
    }
  }

  lemma OrderRegister(opt: Options, c: Control, t: nat)
    requires InOrderOfRegistration(c) && Enabled(opt, c, Register(t))
    ensures InOrderOfRegistration(Next(opt, c, Register(t)))
  {
  }

  lemma OrderStep(opt: Options, c: Control, m: Move)
    requires InOrderOfRegistration(c) && Enabled(opt, c, m)
    ensures InOrderOfRegistration(Next(opt, c, m))
  {
    if InScan(c) && (m.LoadAlive? || m.OnConsumer?) {
      OrderScan(opt, c, m);
    } else if m.EndRetire? {
      OrderEndRetire(opt, c);
    } else if m.NextConsumer? {
      OrderNextConsumer(opt, c);
    } else if m.Register? {
      OrderRegister(opt, c, m.t);
    } else {
      OrderElsewhere(opt, c, m);
    }
  }

  /** Threads are served in the order in which they registered. */
  lemma {:induction false} ServedInOrder(opt: Options, states: seq<Sys>, moves: seq<Move>, n: nat)
    requires Run(opt, states, moves) && n < |states|
    ensures InOrderOfRegistration(states[n].c)
  {
    if n > 0 {
      ServedInOrder(opt, states, moves, n - 1);
      assert SysStep(opt, states[n - 1], moves[n - 1], states[n]);
      OrderStep(opt, states[n - 1].c, moves[n - 1]);
    }
  }

  // ---- The flag -----------------------------------------------------------------------------

  /** The flag is set exactly if it has been stored. */
  lemma {:induction false} FlagIffStored(opt: Options, states: seq<Sys>, moves: seq<Move>, k: nat)
    requires Run(opt, states, moves) && k < |states|
    ensures states[k].c.flag <==> exists n: nat :: n < k && moves[n].StoreFlag?
  {
    if k > 0 {
      FlagIffStored(opt, states, moves, k - 1);
      assert SysStep(opt, states[k - 1], moves[k - 1], states[k]);
    }
  }

  /** Without draining the worker returns at its next look at the flag; with draining it
      never returns there. */
  lemma NextLookAtFlag(opt: Options, states: seq<Sys>, moves: seq<Move>, n: nat)
    requires Run(opt, states, moves) && n < |moves| && moves[n].LoadFlag?
    ensures states[n + 1].c.pc.Done? <==> states[n].c.flag && !opt.waitForDrain
  {
    assert SysStep(opt, states[n], moves[n], states[n + 1]);
  }

  /** Stopping is final: from then on nothing is consumed or dispatched. */
  lemma {:induction false} DoneIsFinal(opt: Options, states: seq<Sys>, moves: seq<Move>, a: nat, b: nat, id: nat)
    requires opt.Valid() && Run(opt, states, moves) && a <= b < |states| && states[a].c.pc.Done? && id < |states[a].qs|
    ensures states[b].c.pc.Done? && states[b].c.dispatched == states[a].c.dispatched
    ensures id < |states[b].qs| && states[b].qs[id].consumed == states[a].qs[id].consumed
    decreases b
  {
    if a < b {
      DoneIsFinal(opt, states, moves, a, b - 1, id);
      RunGrows(opt, states, moves, a, b - 1, id);
      RunInv(opt, states, moves, b - 1);
      assert SysStep(opt, states[b - 1], moves[b - 1], states[b]);
      DispatchUnchanged(opt, states[b - 1], moves[b - 1], states[b]);
    }
  }

  // ---- The end of a batch --------------------------------------------------------------------

  /** The pass number `p` is over for queue `id`, which has given up `c0` records. */
  ghost predicate TurnOver(s: Sys, id: nat, c0: nat, p: nat) {
    && id < |s.qs| && p <= s.c.passes
    && (s.c.passes == p ==> InDrain(s.c) && s.c.pc.i <= |s.c.snapshot| && id !in s.c.snapshot[s.c.pc.i..] && s.qs[id].consumed == c0)
  }

  lemma TailWithout(xs: seq<nat>, i: nat, id: nat)
    requires i < |xs| && id !in xs[i..]
    ensures id !in xs[i + 1..] && xs[i] != id
  {
    assert xs[i..] == [xs[i]] + xs[i + 1..];
  }

  lemma TurnOverInside(opt: Options, c: Control, m: Move, id: nat)
    requires Enabled(opt, c, m) && InDrain(c) && (m.NextConsumer? || m.OnConsumer?)
    requires c.pc.i <= |c.snapshot| && id !in c.snapshot[c.pc.i..]
    ensures var c' := Next(opt, c, m);
      c'.passes > c.passes || (c'.passes == c.passes && InDrain(c') && c'.snapshot == c.snapshot
                               && c'.pc.i <= |c'.snapshot| && id !in c'.snapshot[c'.pc.i..])
  {
    if c.pc.i < |c.snapshot| {
      TailWithout(c.snapshot, c.pc.i, id);
    }
  }

  lemma TurnOverControl(opt: Options, c: Control, m: Move, id: nat)
    requires Enabled(opt, c, m) && InDrain(c) && c.pc.i <= |c.snapshot| && id !in c.snapshot[c.pc.i..]
    ensures var c' := Next(opt, c, m);
      c'.passes > c.passes || (c'.passes == c.passes && InDrain(c') && c'.snapshot == c.snapshot
                               && c'.pc.i <= |c'.snapshot| && id !in c'.snapshot[c'.pc.i..])
  {
    if m.NextConsumer? || m.OnConsumer? {
      TurnOverInside(opt, c, m, id);
    } else {
      OutsideDrain(opt, c, m, id, 1);
    }
  }

  lemma PassesGrow(opt: Options, c: Control, m: Move)
    requires Enabled(opt, c, m)
    ensures c.passes <= Next(opt, c, m).passes
  {
  }

  lemma TurnOverConsumed(opt: Options, s: Sys, m: Move, s': Sys, id: nat)
    requires Inv(opt, s) && SysStep(opt, s, m, s') && id < |s.qs|
    requires InDrain(s.c) && s.c.pc.i <= |s.c.snapshot| && id !in s.c.snapshot[s.c.pc.i..]
    ensures id < |s'.qs| && s'.qs[id].consumed == s.qs[id].consumed
  {
    if m.OnConsumer? && m.e.Read? {
      ReadDispatches(opt, s, m, s');
      TailWithout(s.c.snapshot, s.c.pc.i, id);
    } else {
      DispatchUnchanged(opt, s, m, s');
      StepQueues(opt, s, m, s');
    }
  }

  lemma TurnOverStep(opt: Options, s: Sys, m: Move, s': Sys, id: nat, c0: nat, p: nat)
    requires Inv(opt, s) && SysStep(opt, s, m, s') && TurnOver(s, id, c0, p)
    ensures TurnOver(s', id, c0, p)
  {
    PassesGrow(opt, s.c, m);
    if s.c.passes == p {
      TurnOverControl(opt, s.c, m, id);
      TurnOverConsumed(opt, s, m, s', id);
    } else {
      StepQueues(opt, s, m, s');
    }
  }

  lemma {:induction false} TurnOverRun(opt: Options, states: seq<Sys>, moves: seq<Move>, a: nat, b: nat, id: nat, c0: nat, p: nat)
    requires opt.Valid() && Run(opt, states, moves) && a <= b < |states| && TurnOver(states[a], id, c0, p)
    ensures TurnOver(states[b], id, c0, p)
    decreases b
  {
    if a < b {
      TurnOverRun(opt, states, moves, a, b - 1, id, c0, p);
      RunInv(opt, states, moves, b - 1);
      assert SysStep(opt, states[b - 1], moves[b - 1], states[b]);
      TurnOverStep(opt, states[b - 1], moves[b - 1], states[b], id, c0, p);
    }
  }

  /** A record that does not decode ends its queue's batch: the queue gives up nothing
      more in that pass. */
  lemma UndecodableEndsBatch(opt: Options, states: seq<Sys>, moves: seq<Move>, n: nat, b: nat)
    requires opt.Valid() && Run(opt, states, moves) && n < b < |states|
    requires moves[n].OnConsumer? && moves[n].e.Read? && !opt.decodes(moves[n].e.chunk)
    requires states[b].c.passes == states[n].c.passes
    ensures AtQueue(states[n].c) && WorkerQueue(states[n].c) < |states[n].qs| <= |states[b].qs|
    ensures var id := WorkerQueue(states[n].c); states[b].qs[id].consumed == states[n].qs[id].consumed + 1
  {
    RunInv(opt, states, moves, n);
    assert SysStep(opt, states[n], moves[n], states[n + 1]);
    ReadDispatches(opt, states[n], moves[n], states[n + 1]);
    var id, c := WorkerQueue(states[n].c), states[n].c;
    NotAgain(c.snapshot, c.pc.i);
    TurnOverRun(opt, states, moves, n + 1, b, id, states[n].qs[id].consumed + 1, c.passes);
    RunGrows(opt, states, moves, n, b, id);
    MoreQueues(opt, states, moves, n, b);
  }

  lemma NotAgain(xs: seq<nat>, i: nat)
    requires Distinct(xs) && i < |xs|
    ensures xs[i] !in xs[i + 1..]
  {
  }

  lemma {:induction false} MoreQueues(opt: Options, states: seq<Sys>, moves: seq<Move>, a: nat, b: nat)
    requires opt.Valid() && Run(opt, states, moves) && a <= b < |states|
    ensures |states[a].qs| <= |states[b].qs|
    decreases b
  {
    if a < b {
      MoreQueues(opt, states, moves, a, b - 1);
      assert SysStep(opt, states[b - 1], moves[b - 1], states[b]);
    }
  }
}
