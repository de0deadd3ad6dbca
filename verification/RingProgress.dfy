/** The whole backend over byte rings: no thread is ever blocked but by a scan of the
    registry, no record is refused that fits, and dead empty rings leave the registry. */
module RingProgress {
  import opened Fifo
  import R = RingMachine
  import RingProofs
  import W = RingWrites
  import opened Protocol
  import P = ProtocolProgress
  import opened RingSystem
  import opened RingTermination

  /** `rm` is possible. */
  ghost predicate Can(cfg: R.Config, opt: Options, s: RSys, rm: RMove) {
    exists s' :: RStep(cfg, opt, s, rm, s')
  }

  lemma CanPlain(cfg: R.Config, opt: Options, s: RSys, m: Move)
    requires !m.OnProducer? && !m.OnConsumer? && Enabled(opt, s.c, m) && (m.StoreFlag? ==> m.counts == ChunkCounts(s.rings))
    ensures Can(cfg, opt, s, Plain(m))
  {
    var s' := RSys(Next(opt, s.c, m), if m.Register? then s.rings + [R.Init(cfg)] else s.rings);
    assert RStep(cfg, opt, s, Plain(m), s');
  }

  lemma CanProduce(cfg: R.Config, opt: Options, s: RSys, t: nat, a: R.Action)
    requires t in s.c.slots && R.IsProducerAction(a) && RingEnabled(cfg, s, s.c.slots[t], a)
    requires Enabled(opt, s.c, OnProducer(t, R.EventOf(cfg, s.rings[s.c.slots[t]], a)))
    ensures Can(cfg, opt, s, Produce(t, a))
  {
    var r := s.rings[s.c.slots[t]];
    var s' := RSys(Next(opt, s.c, OnProducer(t, R.EventOf(cfg, r, a))), s.rings[s.c.slots[t] := R.Apply(cfg, r, a)]);
    assert RStep(cfg, opt, s, Produce(t, a), s');
  }

  lemma OwnRing(cfg: R.Config, opt: Options, s: RSys, t: nat)
    requires Ready(cfg, opt, s) && t in s.c.slots
    ensures s.c.slots[t] < |s.rings| == |s.c.calls| == |s.c.alive|
    ensures R.Inv(cfg, s.rings[s.c.slots[t]]) && CoupledQueue(s.c, s.c.slots[t], s.rings[s.c.slots[t]])
  {
    assert |AbsSys(s).qs| == |s.rings|;
  }

  /** What a thread may do next, whatever every other thread and the worker are doing:
      register unless the registry is being scanned; between calls, log any record or
      exit; inside a call, go on with it. The flag can be stored at any time. */
  lemma ThreadNeverBlocked(cfg: R.Config, opt: Options, s: RSys, t: nat, data: Chunk)
    requires Ready(cfg, opt, s) && cfg.Framed(data)
    ensures t !in s.c.slots && !s.c.pc.Retire? && !s.c.pc.RetireQuery? && !s.c.pc.Check? ==>
              Can(cfg, opt, s, Plain(Register(t)))
    ensures InCall(s.c, t, Idle) ==> Can(cfg, opt, s, Produce(t, R.PStart(data))) && Can(cfg, opt, s, Plain(Exit(t)))
    ensures InCall(s.c, t, Writing) ==> exists a :: Can(cfg, opt, s, Produce(t, a))
    ensures InCall(s.c, t, Rejected) ==> Can(cfg, opt, s, Plain(CountDrop(t)))
    ensures t in s.c.slots ==> InCall(s.c, t, Idle) || InCall(s.c, t, Writing) || InCall(s.c, t, Rejected)
    ensures Can(cfg, opt, s, Plain(StoreFlag(ChunkCounts(s.rings))))
  {
    CanPlain(cfg, opt, s, StoreFlag(ChunkCounts(s.rings)));
    if t !in s.c.slots {
      if !Locked(s.c) {
        CanPlain(cfg, opt, s, Register(t));
      }
    } else {
      OwnRing(cfg, opt, s, t);
      if InCall(s.c, t, Idle) {
        CanProduce(cfg, opt, s, t, R.PStart(data));
        CanPlain(cfg, opt, s, Exit(t));
      } else if InCall(s.c, t, Writing) {
        WritingGoesOn(cfg, opt, s, t);
      } else {
        CanPlain(cfg, opt, s, CountDrop(t));
      }
    }
  }

  lemma WritingGoesOn(cfg: R.Config, opt: Options, s: RSys, t: nat)
    requires Ready(cfg, opt, s) && InCall(s.c, t, Writing)
    ensures exists a :: Can(cfg, opt, s, Produce(t, a))
  {
    OwnRing(cfg, opt, s, t);
    var id := s.c.slots[t];
    W.WriteIsWaitFree(cfg, s.rings[id]);
    var a :| R.IsProducerAction(a) && R.Enabled(cfg, s.rings[id], a);
    ControlIsReceptive(cfg, opt, s, id, a);
    CanProduce(cfg, opt, s, t, a);
  }

  /** A log call's record is refused only if it is larger than the ring or does not fit
      behind a read position loaded during the call. */
  lemma RefusedOnlyIfFull(cfg: R.Config, opt: Options, states: seq<RSys>, moves: seq<RMove>, n: nat)
    requires Compatible(cfg, opt) && RRun(cfg, opt, states, moves) && n < |moves| && moves[n].Produce?
    requires AbsMove(cfg, states[n], moves[n]) == OnProducer(moves[n].t, Reject)
    ensures moves[n].t in states[n].c.slots && states[n].c.slots[moves[n].t] < |states[n].rings|
    ensures var r, a := states[n].rings[states[n].c.slots[moves[n].t]], moves[n].a;
      && (r.producer.PChecking? || r.producer.PWaiting?)
      && (|r.producer.data| > cfg.Cap()
          || (a.PLoad? && a.k <= |r.chunks| && !W.FitsBehind(cfg, r, a.k, |r.producer.data|)))
  {
    RRunInv(cfg, opt, states, moves, n);
    assert RStep(cfg, opt, states[n], moves[n], states[n + 1]);
    W.RefusalIs(cfg, states[n].rings[states[n].c.slots[moves[n].t]], moves[n].a);
  }

  /** So when everything a thread has committed has been delivered, its next record is
      accepted if it fits the ring at all, unless the load of the read position is stale. */
  lemma EmptyRingAccepts(cfg: R.Config, opt: Options, states: seq<RSys>, moves: seq<RMove>, n: nat)
    requires Compatible(cfg, opt) && RRun(cfg, opt, states, moves) && n < |moves| && moves[n].Produce?
    requires moves[n].a.PCheck? || moves[n].a.PLoad?
    requires moves[n].t in states[n].c.slots && states[n].c.slots[moves[n].t] < |states[n].rings|
    requires var r := states[n].rings[states[n].c.slots[moves[n].t]];
      && (r.producer.PChecking? || r.producer.PWaiting?) && |r.producer.data| <= cfg.Cap()
      && |r.delivered| == |r.chunks| && (moves[n].a.PLoad? ==> moves[n].a.k + 1 == |r.readLog|)
    ensures AbsMove(cfg, states[n], moves[n]) != OnProducer(moves[n].t, Reject)
  {
    RRunInv(cfg, opt, states, moves, n);
    assert RStep(cfg, opt, states[n], moves[n], states[n + 1]);
    W.EmptyRingAccepts(cfg, states[n].rings[states[n].c.slots[moves[n].t]], moves[n].a);
  }

  /** A ring whose producer is gone and whose bytes have all been delivered is out of the
      registry after the next completed scan, and stays out. */
  lemma GoneIsRetired(cfg: R.Config, opt: Options, states: seq<RSys>, moves: seq<RMove>, a: nat, n: nat, b: nat, id: nat)
    requires Compatible(cfg, opt) && RRun(cfg, opt, states, moves) && a <= n < |moves| && n < b < |states|
    requires !P.InScan(states[a].c) && id < |states[a].rings| && id < |states[a].c.alive|
    requires !states[a].c.alive[id] && |states[a].rings[id].delivered| == |states[a].rings[id].chunks|
    requires moves[n] == Plain(EndRetire)
    ensures id !in states[b].c.registry
  {
    RunRefines(cfg, opt, states, moves);
    P.GoneIsRetired(opt, AbsStates(states), AbsMoves(cfg, states, moves), a, n, b, id);
  }
}
