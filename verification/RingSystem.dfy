/** The whole backend over byte rings: the protocol's control state, with every
    queue a `RingMachine` whose bytes, positions and atomics step individually.
    Every run of it is a run of the abstract protocol, so the guarantees proved
    there hold of the bytes that the worker copies out of the rings. */
module RingSystem {
  import opened Fifo
  import R = RingMachine
  import RingProofs
  import opened Protocol
  import ProtocolProofs
  import T = ProtocolTheorems

  datatype RSys = RSys(c: Control, rings: seq<R.Ring>)

  datatype RMove =
    | Plain(m: Move)               // a move that touches no queue
    | Produce(t: nat, a: R.Action) // thread t takes one step of its `write`
    | Consume(a: R.Action)         // the worker takes one step on its current queue

  const INIT_RSYS := RSys(InitControl(), [])

  ghost predicate Compatible(cfg: R.Config, opt: Options) {
    cfg.Valid() && opt.Valid() && opt.header == cfg.header
  }

  function ChunkCounts(rings: seq<R.Ring>): (counts: seq<nat>)
    ensures |counts| == |rings|
    ensures forall i :: 0 <= i < |rings| ==> counts[i] == |rings[i].chunks|
  {
    seq(|rings|, i requires 0 <= i < |rings| => |rings[i].chunks|)
  }

  /** Ring `id` can take action `a`. */
  predicate RingEnabled(cfg: R.Config, s: RSys, id: nat, a: R.Action) {
    id < |s.rings| && R.WordsOk(cfg, s.rings[id]) && R.Enabled(cfg, s.rings[id], a)
  }

  ghost predicate RStep(cfg: R.Config, opt: Options, s: RSys, rm: RMove, s': RSys) {
    match rm
    case Plain(m) =>
      && !m.OnProducer? && !m.OnConsumer? && Enabled(opt, s.c, m) && s'.c == Next(opt, s.c, m)
      && s'.rings == (if m.Register? then s.rings + [R.Init(cfg)] else s.rings)
      && (m.StoreFlag? ==> m.counts == ChunkCounts(s.rings))
    case Produce(t, a) =>
      && t in s.c.slots && R.IsProducerAction(a) && RingEnabled(cfg, s, s.c.slots[t], a)
      && var r := s.rings[s.c.slots[t]];
         var m := OnProducer(t, R.EventOf(cfg, r, a));
         && Enabled(opt, s.c, m)
         && s' == RSys(Next(opt, s.c, m), s.rings[s.c.slots[t] := R.Apply(cfg, r, a)])
    case Consume(a) =>
      && AtQueue(s.c) && !R.IsProducerAction(a) && RingEnabled(cfg, s, WorkerQueue(s.c), a)
      && var r := s.rings[WorkerQueue(s.c)];
         var m := OnConsumer(R.EventOf(cfg, r, a));
         && R.LoadsLatest(r, a)
         && Enabled(opt, s.c, m)
         && s' == RSys(Next(opt, s.c, m), s.rings[WorkerQueue(s.c) := R.Apply(cfg, r, a)])
  }

  ghost predicate RRun(cfg: R.Config, opt: Options, states: seq<RSys>, moves: seq<RMove>) {
    && |states| == |moves| + 1
    && states[0] == INIT_RSYS
    && forall i {:trigger moves[i]} :: 0 <= i < |moves| ==> RStep(cfg, opt, states[i], moves[i], states[i + 1])
  }

  // ---- Ring invariants ---------------------------------------------------------

  /** The worker is inside `try_read_one` on queue `id`. */
  predicate Reading(c: Control, id: nat) {
    c.pc.Busy? && AtQueue(c) && WorkerQueue(c) == id
  }

  /** Control and ring agree on who is in the middle of what. */
  ghost predicate CoupledQueue(c: Control, id: nat, r: R.Ring) {
    && id < |c.calls|
    && (r.producer.PIdle? <==> !c.calls[id].Writing?)
    && (r.consumer.CIdle? <==> !Reading(c, id))
  }

  ghost predicate Coupled(s: RSys) {
    && |s.c.calls| == |s.rings|
    && (s.c.pc.Busy? ==> AtQueue(s.c) && WorkerQueue(s.c) < |s.rings|)
    && (forall id :: 0 <= id < |s.rings| ==> CoupledQueue(s.c, id, s.rings[id]))
  }

  ghost predicate RingsOk(cfg: R.Config, s: RSys) {
    forall id :: 0 <= id < |s.rings| ==> R.Inv(cfg, s.rings[id])
  }

  ghost predicate RInv(cfg: R.Config, s: RSys) {
    Coupled(s) && RingsOk(cfg, s)
  }

  function AbsSys(s: RSys): Sys {
    Sys(s.c, seq(|s.rings|, i requires 0 <= i < |s.rings| => R.Abs(s.rings[i])))
  }

  function AbsMove(cfg: R.Config, s: RSys, rm: RMove): Move {
    match rm
    case Plain(m) => m
    case Produce(t, a) =>
      if t in s.c.slots && RingEnabled(cfg, s, s.c.slots[t], a)
      then OnProducer(t, R.EventOf(cfg, s.rings[s.c.slots[t]], a)) else LoadFlag
    case Consume(a) =>
      if AtQueue(s.c) && RingEnabled(cfg, s, WorkerQueue(s.c), a)
      then OnConsumer(R.EventOf(cfg, s.rings[WorkerQueue(s.c)], a)) else LoadFlag
  }

  lemma AbsUpdate(s: RSys, id: nat, r: R.Ring, c': Control)
    requires id < |s.rings|
    ensures AbsSys(RSys(c', s.rings[id := r])).qs == AbsSys(s).qs[id := R.Abs(r)]
  {
  }

  lemma PlainRefines(cfg: R.Config, opt: Options, s: RSys, rm: RMove, s': RSys)
    requires Compatible(cfg, opt) && RStep(cfg, opt, s, rm, s') && rm.Plain?
    ensures SysStep(opt, AbsSys(s), AbsMove(cfg, s, rm), AbsSys(s'))
  {
    RingProofs.InitInv(cfg);
    assert rm.m.Register? ==> AbsSys(s').qs == AbsSys(s).qs + [EMPTY];
    assert !rm.m.Register? ==> AbsSys(s').qs == AbsSys(s).qs;
    assert rm.m.StoreFlag? ==> rm.m.counts == Counts(AbsSys(s).qs);
  }

  lemma ProduceRefines(cfg: R.Config, opt: Options, s: RSys, rm: RMove, s': RSys)
    requires Compatible(cfg, opt) && RInv(cfg, s) && RStep(cfg, opt, s, rm, s') && rm.Produce?
    ensures SysStep(opt, AbsSys(s), AbsMove(cfg, s, rm), AbsSys(s'))
  {
    var id := s.c.slots[rm.t];
    RingProofs.StepRefines(cfg, s.rings[id], rm.a);
    AbsUpdate(s, id, R.Apply(cfg, s.rings[id], rm.a), s'.c);
  }

  lemma ConsumeRefines(cfg: R.Config, opt: Options, s: RSys, rm: RMove, s': RSys)
    requires Compatible(cfg, opt) && RInv(cfg, s) && RStep(cfg, opt, s, rm, s') && rm.Consume?
    ensures SysStep(opt, AbsSys(s), AbsMove(cfg, s, rm), AbsSys(s'))
  {
    var id := WorkerQueue(s.c);
    RingProofs.StepRefines(cfg, s.rings[id], rm.a);
    AbsUpdate(s, id, R.Apply(cfg, s.rings[id], rm.a), s'.c);
  }

  /** Each step over rings is one step of the abstract protocol. */
  lemma StepRefines(cfg: R.Config, opt: Options, s: RSys, rm: RMove, s': RSys)
    requires Compatible(cfg, opt) && RInv(cfg, s) && RStep(cfg, opt, s, rm, s')
    ensures SysStep(opt, AbsSys(s), AbsMove(cfg, s, rm), AbsSys(s'))
  {
    match rm
    case Plain(m) => PlainRefines(cfg, opt, s, rm, s');
    case Produce(t, a) => ProduceRefines(cfg, opt, s, rm, s');
    case Consume(a) => ConsumeRefines(cfg, opt, s, rm, s');
  }

  /** A ring changes its producer's phase exactly as it reports it. */
  lemma ProducerPhase(cfg: R.Config, r: R.Ring, a: R.Action)
    requires R.Inv(cfg, r) && R.Enabled(cfg, r, a) && R.IsProducerAction(a)
    ensures var r', e := R.Apply(cfg, r, a), R.EventOf(cfg, r, a);
      && r'.consumer == r.consumer
      && (e.Start? ==> r.producer.PIdle? && !r'.producer.PIdle?)
      && (!e.Start? ==> !r.producer.PIdle? && (r'.producer.PIdle? <==> e.Commit? || e.Reject?))
      && (e.Start? || e.Tau? || e.Reject? || e.Commit?)
      && (e.Commit? ==> |e.chunk| >= cfg.header)
  {
  }

  lemma ConsumerPhase(cfg: R.Config, r: R.Ring, a: R.Action)
    requires cfg.Valid() && R.Inv(cfg, r) && R.Enabled(cfg, r, a) && !R.IsProducerAction(a)
    ensures var r', e := R.Apply(cfg, r, a), R.EventOf(cfg, r, a);
      && r'.producer == r.producer
      && (e.Query? ==> r.consumer.CIdle? && r'.consumer.CIdle?)
      && (e.Begin? ==> r.consumer.CIdle? && (r'.consumer.CIdle? <==> e.bytes < cfg.header))
      && (!e.Query? && !e.Begin? ==> !r.consumer.CIdle? && (r'.consumer.CIdle? <==> e.Read? || e.Short?))
      && (e.Query? || e.Begin? || e.Tau? || e.Read? || e.Short?)
  {
  }

  lemma StepRings(cfg: R.Config, opt: Options, s: RSys, rm: RMove, s': RSys)
    requires Compatible(cfg, opt) && RInv(cfg, s) && RStep(cfg, opt, s, rm, s')
    ensures RingsOk(cfg, s')
  {
    match rm
    case Plain(m) => RingProofs.InitInv(cfg);
    case Produce(t, a) => RingProofs.StepInv(cfg, s.rings[s.c.slots[t]], a);
    case Consume(a) => RingProofs.StepInv(cfg, s.rings[WorkerQueue(s.c)], a);
  }

  lemma ProducerControl(opt: Options, c: Control, t: nat, e: Event)
    requires Enabled(opt, c, OnProducer(t, e))
    ensures var c', id := Next(opt, c, OnProducer(t, e)), c.slots[t];
      && c'.pc == c.pc && c'.snapshot == c.snapshot && c'.registry == c.registry && |c'.calls| == |c.calls|
      && (forall j :: 0 <= j < |c.calls| && j != id ==> c'.calls[j] == c.calls[j])
      && (c'.calls[id].Writing? <==> e.Start? || e.Tau?)
  {
  }

  lemma ProduceCoupled(cfg: R.Config, opt: Options, s: RSys, rm: RMove, s': RSys)
    requires Compatible(cfg, opt) && RInv(cfg, s) && RStep(cfg, opt, s, rm, s') && rm.Produce?
    ensures Coupled(s')
  {
    var id := s.c.slots[rm.t];
    ProducerPhase(cfg, s.rings[id], rm.a);
    ProducerControl(opt, s.c, rm.t, R.EventOf(cfg, s.rings[id], rm.a));
    forall j | 0 <= j < |s'.rings| ensures CoupledQueue(s'.c, j, s'.rings[j]) {
      assert CoupledQueue(s.c, j, s.rings[j]);
    }
  }

  /** How the worker's control and the ring it is on move together. */
  lemma ObservePhase(cfg: R.Config, opt: Options, c: Control, id: nat, r: R.Ring, a: R.Action)
    requires Compatible(cfg, opt) && R.Inv(cfg, r) && R.Enabled(cfg, r, a) && !R.IsProducerAction(a)
    requires AtQueue(c) && WorkerQueue(c) == id && CoupledQueue(c, id, r)
    requires Enabled(opt, c, OnConsumer(R.EventOf(cfg, r, a)))
    ensures var c' := Next(opt, c, OnConsumer(R.EventOf(cfg, r, a)));
      && c'.calls == c.calls && CoupledQueue(c', id, R.Apply(cfg, r, a))
      && (c'.pc.Busy? ==> Reading(c', id))
  {
    ConsumerPhase(cfg, r, a);
  }

  lemma ConsumeCoupled(cfg: R.Config, opt: Options, s: RSys, rm: RMove, s': RSys)
    requires Compatible(cfg, opt) && RInv(cfg, s) && RStep(cfg, opt, s, rm, s') && rm.Consume?
    ensures Coupled(s')
  {
    var id := WorkerQueue(s.c);
    assert CoupledQueue(s.c, id, s.rings[id]);
    ObservePhase(cfg, opt, s.c, id, s.rings[id], rm.a);
    forall j | 0 <= j < |s'.rings| ensures CoupledQueue(s'.c, j, s'.rings[j]) {
      assert CoupledQueue(s.c, j, s.rings[j]);
    }
  }

  lemma PlainPhase(opt: Options, c: Control, m: Move)
    requires Enabled(opt, c, m) && !m.OnProducer? && !m.OnConsumer?
    ensures var c' := Next(opt, c, m);
      && (c'.pc.Busy? <==> c.pc.Busy?)
      && (c.pc.Busy? ==> c'.pc == c.pc && c'.snapshot == c.snapshot)
      && |c'.calls| == |c.calls| + (if m.Register? then 1 else 0)
      && (forall j :: 0 <= j < |c.calls| ==> (c'.calls[j].Writing? <==> c.calls[j].Writing?))
      && (m.Register? ==> c'.calls[|c.calls|] == Idle)
  {
  }

  lemma PlainCoupled(cfg: R.Config, opt: Options, s: RSys, rm: RMove, s': RSys)
    requires Compatible(cfg, opt) && RInv(cfg, s) && RStep(cfg, opt, s, rm, s') && rm.Plain?
    ensures Coupled(s')
  {
    PlainPhase(opt, s.c, rm.m);
    forall j | 0 <= j < |s'.rings| ensures CoupledQueue(s'.c, j, s'.rings[j]) {
      if j < |s.rings| {
        assert CoupledQueue(s.c, j, s.rings[j]);
      }
    }
  }

  lemma StepRInv(cfg: R.Config, opt: Options, s: RSys, rm: RMove, s': RSys)
    requires Compatible(cfg, opt) && RInv(cfg, s) && RStep(cfg, opt, s, rm, s')
    ensures RInv(cfg, s')
  {
    StepRings(cfg, opt, s, rm, s');
    match rm
    case Plain(m) => PlainCoupled(cfg, opt, s, rm, s');
    case Produce(t, a) => ProduceCoupled(cfg, opt, s, rm, s');
    case Consume(a) => ConsumeCoupled(cfg, opt, s, rm, s');
  }

  /** The control never refuses what a ring reports: in the middle of a read or
      of a write, whatever the ring can do next is a step of the system. */
  lemma ControlIsReceptive(cfg: R.Config, opt: Options, s: RSys, id: nat, a: R.Action)
    requires Compatible(cfg, opt) && RInv(cfg, s) && RingEnabled(cfg, s, id, a)
    ensures R.IsProducerAction(a) && !s.rings[id].producer.PIdle? ==>
              forall t :: t in s.c.slots && s.c.slots[t] == id ==>
                Enabled(opt, s.c, OnProducer(t, R.EventOf(cfg, s.rings[id], a)))
    ensures !R.IsProducerAction(a) && !s.rings[id].consumer.CIdle? ==>
              s.c.pc.Busy? && AtQueue(s.c) && WorkerQueue(s.c) == id
              && Enabled(opt, s.c, OnConsumer(R.EventOf(cfg, s.rings[id], a)))
  {
    assert CoupledQueue(s.c, id, s.rings[id]);
    if R.IsProducerAction(a) {
      ProducerPhase(cfg, s.rings[id], a);
    } else {
      ConsumerPhase(cfg, s.rings[id], a);
    }
  }

  lemma {:induction false} RRunInv(cfg: R.Config, opt: Options, states: seq<RSys>, moves: seq<RMove>, n: nat)
    requires Compatible(cfg, opt) && RRun(cfg, opt, states, moves) && n < |states|
    ensures RInv(cfg, states[n])
  {
    if n > 0 {
      RRunInv(cfg, opt, states, moves, n - 1);
      assert RStep(cfg, opt, states[n - 1], moves[n - 1], states[n]);
      StepRInv(cfg, opt, states[n - 1], moves[n - 1], states[n]);
    }
  }

  function AbsStates(states: seq<RSys>): (abs: seq<Sys>)
    ensures |abs| == |states| && forall i :: 0 <= i < |states| ==> abs[i] == AbsSys(states[i])
  {
    seq(|states|, i requires 0 <= i < |states| => AbsSys(states[i]))
  }

  function AbsMoves(cfg: R.Config, states: seq<RSys>, moves: seq<RMove>): (abs: seq<Move>)
    requires |states| == |moves| + 1
    ensures |abs| == |moves| && forall i :: 0 <= i < |moves| ==> abs[i] == AbsMove(cfg, states[i], moves[i])
  {
    seq(|moves|, i requires 0 <= i < |moves| => AbsMove(cfg, states[i], moves[i]))
  }

  /** Every run over byte rings is a run of the abstract protocol. */
  lemma RunRefines(cfg: R.Config, opt: Options, states: seq<RSys>, moves: seq<RMove>)
    requires Compatible(cfg, opt) && RRun(cfg, opt, states, moves)
    ensures Run(opt, AbsStates(states), AbsMoves(cfg, states, moves))
  {
    var ss, ms := AbsStates(states), AbsMoves(cfg, states, moves);
    forall i | 0 <= i < |ms| ensures SysStep(opt, ss[i], ms[i], ss[i + 1]) {
      RRunInv(cfg, opt, states, moves, i);
      assert RStep(cfg, opt, states[i], moves[i], states[i + 1]);
      StepRefines(cfg, opt, states[i], moves[i], states[i + 1]);
    }
  }

  /** End to end: when the worker has stopped with draining on, the bytes it
      copied out of each ring start with every record, byte for byte and in
      order, that was committed to that ring before the flag was stored. */
  lemma NoRecordLost(cfg: R.Config, opt: Options, states: seq<RSys>, moves: seq<RMove>, n: nat, k: nat, id: nat)
    requires Compatible(cfg, opt) && opt.waitForDrain && RRun(cfg, opt, states, moves)
    requires n < |moves| && moves[n].Plain? && moves[n].m.StoreFlag? && !states[n].c.flag
    requires n < k < |states| && states[k].c.pc.Done?
    requires id < |states[n].rings|
    ensures id < |states[k].rings|
    ensures states[n].rings[id].chunks <= states[k].rings[id].delivered
  {
    RunRefines(cfg, opt, states, moves);
    T.DrainThenStop(opt, AbsStates(states), AbsMoves(cfg, states, moves), n, k, id);
    RRunInv(cfg, opt, states, moves, k);
  }

  /** What reaches the sinks from a thread is exactly the decodable part of the
      bytes read from its ring, in order, and what was read is what was written. */
  lemma DispatchedAreDelivered(cfg: R.Config, opt: Options, states: seq<RSys>, moves: seq<RMove>, n: nat, id: nat)
    requires Compatible(cfg, opt) && RRun(cfg, opt, states, moves)
    requires n < |states| && id < |states[n].rings|
    ensures states[n].rings[id].delivered <= states[n].rings[id].chunks
    ensures T.Project(states[n].c.dispatched, id) == T.Decodable(opt, states[n].rings[id].delivered)
  {
    RunRefines(cfg, opt, states, moves);
    T.DispatchedInCommitOrder(opt, AbsStates(states), AbsMoves(cfg, states, moves), n);
    assert T.InOrder(opt, AbsSys(states[n]), id);
    RRunInv(cfg, opt, states, moves, n);
  }

  /** In every state of every run, every ring is sound: no wild access, no failed
      assertion, and every record being read has the length that was written. */
  lemma RingsStaySound(cfg: R.Config, opt: Options, states: seq<RSys>, moves: seq<RMove>, n: nat, id: nat)
    requires Compatible(cfg, opt) && RRun(cfg, opt, states, moves)
    requires n < |states| && id < |states[n].rings|
    ensures var r := states[n].rings[id];
      && !r.producer.PWild? && !r.consumer.CPanicked?
      && (r.consumer.CReading? ==> |r.delivered| < |r.chunks| && r.consumer.len == |r.chunks[|r.delivered|]|)
  {
    RRunInv(cfg, opt, states, moves, n);
  }
}
