/** The worker over byte rings always stops: from any reachable state with the
    shutdown flag set, whichever of its own steps come next (flags, locks, loads of
    positions and single bytes copied), it reaches the end of `run` after finitely
    many, and it is never stuck before, in particular not inside `try_read_one`. */
module RingTermination {
  import opened Fifo
  import R = RingMachine
  import RingProofs
  import opened Protocol
  import ProtocolProofs
  import opened RingSystem
  import opened Fairness
  import opened Termination

  /** Any step of the worker, its byte copies and reloads included. */
  ghost predicate WorkerRStep(cfg: R.Config, opt: Options, s: RSys, rm: RMove, s': RSys) {
    (rm.Consume? || (rm.Plain? && WorkerMove(rm.m))) && RStep(cfg, opt, s, rm, s')
  }

  ghost predicate Ready(cfg: R.Config, opt: Options, s: RSys) {
    Compatible(cfg, opt) && RInv(cfg, s) && ProtocolProofs.Inv(opt, AbsSys(s)) && Located(AbsSys(s))
  }

  // ---- Never stuck ------------------------------------------------------------------

  /** The index of the latest published write position. */
  function Latest(r: R.Ring): nat {
    if |r.writeLog| == 0 then 0 else |r.writeLog| - 1
  }

  /** What a reader in the middle of a record does next. */
  function NextInside(cfg: R.Config, r: R.Ring): R.Action {
    match r.consumer
    case CFound(_) => R.CPeekAvail(Latest(r))
    case CPeeking(_, got) => if |got| < cfg.header then R.CPeekByte else R.CSize
    case CSized(_) => R.CReadAvail(Latest(r))
    case CReading(len, got) => if |got| < len then R.CReadByte else R.CAdvance
    case _ => R.CSize
  }

  lemma InsideEnabled(cfg: R.Config, r: R.Ring)
    requires R.Inv(cfg, r) && !r.consumer.CIdle?
    ensures R.Enabled(cfg, r, NextInside(cfg, r)) && !R.IsProducerAction(NextInside(cfg, r))
    ensures R.LoadsLatest(r, NextInside(cfg, r))
  {
  }

  lemma QueryEnabled(cfg: R.Config, r: R.Ring)
    requires R.Inv(cfg, r) && r.consumer.CIdle?
    ensures R.Enabled(cfg, r, R.CBegin(Latest(r))) && R.Enabled(cfg, r, R.CQuery(Latest(r)))
    ensures R.LoadsLatest(r, R.CBegin(Latest(r))) && R.LoadsLatest(r, R.CQuery(Latest(r)))
  {
  }

  lemma Consuming(cfg: R.Config, opt: Options, s: RSys, a: R.Action) returns (rm: RMove, s': RSys)
    requires Ready(cfg, opt, s) && AtQueue(s.c) && WorkerQueue(s.c) < |s.rings|
    requires RingEnabled(cfg, s, WorkerQueue(s.c), a) && !R.IsProducerAction(a) && R.LoadsLatest(s.rings[WorkerQueue(s.c)], a)
    requires Enabled(opt, s.c, OnConsumer(R.EventOf(cfg, s.rings[WorkerQueue(s.c)], a)))
    ensures WorkerRStep(cfg, opt, s, rm, s')
  {
    var id := WorkerQueue(s.c);
    rm := Consume(a);
    s' := RSys(Next(opt, s.c, OnConsumer(R.EventOf(cfg, s.rings[id], a))), s.rings[id := R.Apply(cfg, s.rings[id], a)]);
  }

  lemma AtQueueInRange(cfg: R.Config, opt: Options, s: RSys)
    requires Ready(cfg, opt, s) && AtQueue(s.c)
    ensures WorkerQueue(s.c) < |s.rings| && R.Inv(cfg, s.rings[WorkerQueue(s.c)])
    ensures CoupledQueue(s.c, WorkerQueue(s.c), s.rings[WorkerQueue(s.c)])
  {
    assert |AbsSys(s).qs| == |s.rings|;
  }

  lemma NeverStuckAtQueue(cfg: R.Config, opt: Options, s: RSys) returns (rm: RMove, s': RSys)
    requires Ready(cfg, opt, s) && AtQueue(s.c)
    ensures WorkerRStep(cfg, opt, s, rm, s')
  {
    AtQueueInRange(cfg, opt, s);
    var id := WorkerQueue(s.c);
    var r := s.rings[id];
    if s.c.pc.Busy? {
      InsideEnabled(cfg, r);
      ControlIsReceptive(cfg, opt, s, id, NextInside(cfg, r));
      rm, s' := Consuming(cfg, opt, s, NextInside(cfg, r));
    } else {
      QueryEnabled(cfg, r);
      rm, s' := Consuming(cfg, opt, s, if s.c.pc.Drain? then R.CBegin(Latest(r)) else R.CQuery(Latest(r)));
    }
  }

  /** Before the end of `run` the worker always has a step it can take, also in the
      middle of a record. */
  lemma NeverStuck(cfg: R.Config, opt: Options, s: RSys) returns (rm: RMove, s': RSys)
    requires Ready(cfg, opt, s) && !s.c.pc.Done?
    ensures WorkerRStep(cfg, opt, s, rm, s')
  {
    if AtQueue(s.c) {
      rm, s' := NeverStuckAtQueue(cfg, opt, s);
    } else {
      var m := ControlMove(opt, AbsSys(s));
      rm, s' := Plain(m), RSys(Next(opt, s.c, m), s.rings);
    }
  }

  lemma ControlMove(opt: Options, s: Sys) returns (m: Move)
    requires ProtocolProofs.Inv(opt, s) && Located(s) && !s.c.pc.Done? && !AtQueue(s.c)
    ensures Enabled(opt, s.c, m) && WorkerMove(m) && !m.OnConsumer?
  {
    m := match s.c.pc
      case Top => LoadFlag
      case Snap => TakeSnapshot
      case Retire(i, _) => if i < |s.c.registry| then LoadAlive else EndRetire
      case Retired => Decide
      case Check(_) => EndCheck
      case _ => NextConsumer;
  }

  // ---- What a step inside a record brings down --------------------------------------------

  function Phase(c: R.Consumer): nat {
    match c
    case CFound(_) => 4
    case CPeeking(_, _) => 3
    case CSized(_) => 2
    case CReading(_, _) => 1
    case _ => 0
  }

  function BytesLeft(cfg: R.Config, c: R.Consumer): nat {
    match c
    case CPeeking(_, got) => if |got| < cfg.header then cfg.header - |got| else 0
    case CReading(len, got) => if |got| < len then len - |got| else 0
    case _ => 0
  }

  predicate Further(cfg: R.Config, d: R.Consumer, c: R.Consumer) {
    Phase(d) < Phase(c) || (Phase(d) == Phase(c) && BytesLeft(cfg, d) < BytesLeft(cfg, c))
  }

  /** A step that the control does not see moves the reader on inside its record. */
  lemma TauByte(cfg: R.Config, r: R.Ring, a: R.Action)
    requires R.Inv(cfg, r) && R.Enabled(cfg, r, a) && (a.CPeekByte? || a.CReadByte?)
    requires R.Inv(cfg, R.Apply(cfg, r, a))
    ensures Further(cfg, R.Apply(cfg, r, a).consumer, r.consumer)
  {
  }

  lemma TauLoad(cfg: R.Config, r: R.Ring, a: R.Action)
    requires R.Inv(cfg, r) && R.Enabled(cfg, r, a) && (a.CPeekAvail? || a.CReadAvail? || a.CSize?)
    ensures Further(cfg, R.Apply(cfg, r, a).consumer, r.consumer)
  {
  }

  lemma TauMovesOn(cfg: R.Config, r: R.Ring, a: R.Action)
    requires cfg.Valid() && R.Inv(cfg, r) && R.Enabled(cfg, r, a) && !R.IsProducerAction(a)
    requires R.EventOf(cfg, r, a).Tau?
    ensures Further(cfg, R.Apply(cfg, r, a).consumer, r.consumer)
  {
    RingProofs.StepInv(cfg, r, a);
    if a.CPeekByte? || a.CReadByte? {
      TauByte(cfg, r, a);
    } else {
      TauLoad(cfg, r, a);
    }
  }

  /** The reader of the ring the worker is in. */
  function ReaderOf(s: RSys): R.Consumer {
    if AtQueue(s.c) && s.c.pc.Busy? && WorkerQueue(s.c) < |s.rings| then s.rings[WorkerQueue(s.c)].consumer else R.CIdle
  }

  /** `t` comes strictly after `s` in the order of what is left to do. */
  ghost predicate RCloser(cfg: R.Config, t: RSys, s: RSys) {
    || Closer(AbsSys(t), AbsSys(s))
    || (Level(t, s) && Further(cfg, ReaderOf(t), ReaderOf(s)))
  }

  ghost predicate Level(t: RSys, s: RSys) {
    && Backlog(AbsSys(t).qs) == Backlog(AbsSys(s).qs) && Tier(AbsSys(t)) == Tier(AbsSys(s))
    && t.c == s.c
  }

  lemma SameTier(s: Sys, s': Sys)
    requires s'.c == s.c && SameRecords(s.qs, s'.qs)
    ensures Backlog(s'.qs) == Backlog(s.qs) && Tier(s') == Tier(s)
  {
    SameBacklog(s.qs, s'.qs);
    if InDrain(s.c) {
      forall j: nat | j < |s.c.snapshot| ensures Due(s, j) <==> Due(s', j) {
      }
    }
  }

  lemma TauKeepsControl(opt: Options, c: Control)
    requires Enabled(opt, c, OnConsumer(Tau))
    ensures c.pc.Busy? && Next(opt, c, OnConsumer(Tau)) == c
  {
  }

  lemma TauKeepsRecords(cfg: R.Config, opt: Options, s: RSys, rm: RMove, s': RSys)
    requires Ready(cfg, opt, s) && RStep(cfg, opt, s, rm, s') && rm.Consume? && AbsMove(cfg, s, rm) == OnConsumer(Tau)
    ensures s'.c == s.c && SameRecords(AbsSys(s).qs, AbsSys(s').qs)
  {
    StepRefines(cfg, opt, s, rm, s');
    TauKeepsControl(opt, s.c);
  }

  lemma TauReader(cfg: R.Config, opt: Options, s: RSys, rm: RMove, s': RSys)
    requires Ready(cfg, opt, s) && RStep(cfg, opt, s, rm, s') && rm.Consume? && AbsMove(cfg, s, rm) == OnConsumer(Tau)
    ensures Further(cfg, ReaderOf(s'), ReaderOf(s))
  {
    TauKeepsControl(opt, s.c);
    TauMovesOn(cfg, s.rings[WorkerQueue(s.c)], rm.a);
  }

  /** Once the flag is set, every step of the worker leaves less to do: fewer records,
      or a later point of the loop, or a later point of the record being read. */
  lemma EveryRingStepCloser(cfg: R.Config, opt: Options, s: RSys, rm: RMove, s': RSys)
    requires Ready(cfg, opt, s) && WorkerRStep(cfg, opt, s, rm, s') && s.c.flag
    ensures RCloser(cfg, s', s)
  {
    if rm.Consume? && AbsMove(cfg, s, rm) == OnConsumer(Tau) {
      TauKeepsRecords(cfg, opt, s, rm, s');
      SameTier(AbsSys(s), AbsSys(s'));
      TauReader(cfg, opt, s, rm, s');
    } else {
      StepRefines(cfg, opt, s, rm, s');
      EveryStepCloser(opt, AbsSys(s), AbsMove(cfg, s, rm), AbsSys(s'));
    }
  }

  lemma AbsStepReady(opt: Options, s: Sys, m: Move, s': Sys)
    requires ProtocolProofs.Inv(opt, s) && Located(s) && SysStep(opt, s, m, s')
    ensures ProtocolProofs.Inv(opt, s') && Located(s')
  {
    ProtocolProofs.StepInv(opt, s, m, s');
    LocatedStep(opt, s, m, s');
  }

  lemma FlagStays(opt: Options, c: Control, m: Move)
    requires Enabled(opt, c, m) && c.flag
    ensures Next(opt, c, m).flag
  {
  }

  lemma StepReady(cfg: R.Config, opt: Options, s: RSys, rm: RMove, s': RSys)
    requires Ready(cfg, opt, s) && RStep(cfg, opt, s, rm, s') && s.c.flag
    ensures Ready(cfg, opt, s') && s'.c.flag
  {
    StepRefines(cfg, opt, s, rm, s');
    StepRInv(cfg, opt, s, rm, s');
    AbsStepReady(opt, AbsSys(s), AbsMove(cfg, s, rm), AbsSys(s'));
    FlagStays(opt, s.c, AbsMove(cfg, s, rm));
  }

  /** Every way the worker can go on ends in `Done`, after finitely many steps and
      without getting stuck. */
  least predicate MustStop(cfg: R.Config, opt: Options, s: RSys) {
    || s.c.pc.Done?
    || ((exists rm, s' :: WorkerRStep(cfg, opt, s, rm, s'))
        && forall rm, s' :: WorkerRStep(cfg, opt, s, rm, s') ==> MustStop(cfg, opt, s'))
  }

  lemma MustStopFrom(cfg: R.Config, opt: Options, s: RSys)
    requires Ready(cfg, opt, s) && s.c.flag
    ensures MustStop(cfg, opt, s)
    decreases Backlog(AbsSys(s).qs), Tier(AbsSys(s)), Stage(s.c), ToGo(s.c), Waiting(s.c),
              Phase(ReaderOf(s)), BytesLeft(cfg, ReaderOf(s))
  {
    if !s.c.pc.Done? {
      var rm0, s0 := NeverStuck(cfg, opt, s);
      forall rm, s' | WorkerRStep(cfg, opt, s, rm, s') ensures MustStop(cfg, opt, s') {
        EveryRingStepCloser(cfg, opt, s, rm, s');
        StepReady(cfg, opt, s, rm, s');
        MustStopFrom(cfg, opt, s');
      }
    }
  }

  /** Every state of a run is ready. */
  lemma RunReady(cfg: R.Config, opt: Options, states: seq<RSys>, moves: seq<RMove>, n: nat)
    requires Compatible(cfg, opt) && RRun(cfg, opt, states, moves) && n < |states|
    ensures Ready(cfg, opt, states[n])
  {
    RRunInv(cfg, opt, states, moves, n);
    RunRefines(cfg, opt, states, moves);
    ProtocolProofs.RunInv(opt, AbsStates(states), AbsMoves(cfg, states, moves), n);
    LocatedRun(opt, AbsStates(states), AbsMoves(cfg, states, moves), n);
  }

  /** In every run over byte rings: once the flag is set, if the other threads stop,
      the worker's loop ends, whatever is pending and whatever of it fails to decode. */
  lemma WorkerAlwaysStops(cfg: R.Config, opt: Options, states: seq<RSys>, moves: seq<RMove>, n: nat)
    requires Compatible(cfg, opt) && RRun(cfg, opt, states, moves) && n < |states| && states[n].c.flag
    ensures MustStop(cfg, opt, states[n])
  {
    RunReady(cfg, opt, states, moves, n);
    MustStopFrom(cfg, opt, states[n]);
  }
}
