/** The backend protocol: producer threads that register, log and exit, a
    shutdown flag, and the worker that drains, retires and decides to stop.

    Each atomic load or store of a flag, each locked section on the consumer
    registry that other threads can observe, and each queue operation is its
    own step, so every interleaving is a sequence of moves. The control state
    is driven by what the queues report (`Event`); it does not look inside
    them. The same control therefore runs over abstract queues here and over
    byte rings in `RingSystem`. */
module Protocol {
  import opened Fifo

  /** `header` is the size of a record header, which every record starts with. */
  datatype Options = Options(waitForDrain: bool, header: nat, decodes: Chunk -> bool)
  {
    predicate Valid() { header >= 1 }
  }

  datatype Pc =
    | Top
    | Snap
    | Drain(i: nat, b: nat)                 // consumer i of the snapshot, b records into its batch
    | Busy(i: nat, b: nat)                  // inside try_read_one, bytes found
    | Retire(i: nat, kept: seq<nat>)        // retain(), registry locked
    | RetireQuery(i: nat, kept: seq<nat>)   // alive was loaded as false
    | Retired
    | Check(i: nat)                         // any_queues_pending(), registry locked
    | Done

  datatype Call = Idle | Writing | Rejected

  /** Queues are numbered in order of creation. `mark` records, at the first
      store of the flag, how many records each queue had committed; `mark`,
      `passes`, `dispatched` and the counters are histories. */
  datatype Control = Control(
    registry: seq<nat>, alive: seq<bool>, calls: seq<Call>, slots: map<nat, nat>,
    flag: bool, mark: seq<nat>,
    pc: Pc, shuttingDown: bool, snapshot: seq<nat>, passes: nat,
    started: nat, completed: nat, dropped: nat,
    dispatched: seq<(nat, Chunk)>, undecodable: nat)

  datatype Move =
    // producer threads
    | Register(t: nat)
    | OnProducer(t: nat, e: Event)
    | CountDrop(t: nat)
    | Exit(t: nat)
    // whoever shuts the backend down
    | StoreFlag(counts: seq<nat>)
    // the worker
    | LoadFlag
    | TakeSnapshot
    | NextConsumer
    | LoadAlive
    | EndRetire
    | Decide
    | EndCheck
    | OnConsumer(e: Event)

  function InitControl(): Control {
    Control([], [], [], map[], false, [], Top, false, [], 0, 0, 0, 0, [], 0)
  }

  predicate Locked(c: Control) {
    c.pc.Retire? || c.pc.RetireQuery? || c.pc.Check?
  }

  /** The worker is about to use, or is using, the consumer half of a queue. */
  predicate AtQueue(c: Control) {
    match c.pc
    case Drain(i, b) => i < |c.snapshot| && b < MAX_BATCH_PER_CONSUMER
    case Busy(i, _) => i < |c.snapshot|
    case RetireQuery(i, _) => i < |c.registry|
    case Check(i) => i < |c.registry|
    case _ => false
  }

  function WorkerQueue(c: Control): nat
    requires AtQueue(c)
  {
    if c.pc.Drain? || c.pc.Busy? then c.snapshot[c.pc.i] else c.registry[c.pc.i]
  }

  predicate InCall(c: Control, t: nat, call: Call) {
    t in c.slots && c.slots[t] < |c.calls| && c.calls[c.slots[t]] == call
  }

  predicate Enabled(opt: Options, c: Control, m: Move) {
    match m
    case Register(t) => t !in c.slots && !Locked(c)
    case OnProducer(t, e) =>
      match e {
        case Start => InCall(c, t, Idle)
        case Tau => InCall(c, t, Writing)
        case Reject => InCall(c, t, Writing)
        case Commit(chunk) => InCall(c, t, Writing) && |chunk| >= opt.header
        case _ => false
      }
    case CountDrop(t) => InCall(c, t, Rejected)
    case Exit(t) => InCall(c, t, Idle) && c.slots[t] < |c.alive|
    case StoreFlag(_) => true
    case LoadFlag => c.pc.Top?
    case TakeSnapshot => c.pc.Snap?
    case NextConsumer => c.pc.Drain? && (c.pc.i >= |c.snapshot| || c.pc.b >= MAX_BATCH_PER_CONSUMER)
    case LoadAlive => c.pc.Retire? && c.pc.i < |c.registry| && c.registry[c.pc.i] < |c.alive|
    case EndRetire => c.pc.Retire? && c.pc.i >= |c.registry|
    case Decide => c.pc.Retired?
    case EndCheck => c.pc.Check? && c.pc.i >= |c.registry|
    case OnConsumer(e) =>
      && AtQueue(c)
      && match c.pc {
           case Drain(_, _) => e.Begin?
           case Busy(_, _) => e.Tau? || e.Short? || e.Read?
           case _ => e.Query?
         }
  }

  /** How the worker's control reacts to what the queue reported. */
  function Observe(opt: Options, c: Control, e: Event): Control
    requires Enabled(opt, c, OnConsumer(e))
  {
    match c.pc
    case Drain(i, b) =>
      if e.bytes < opt.header then c.(pc := Drain(i + 1, 0)) else c.(pc := Busy(i, b))
    case Busy(i, b) =>
      if e.Tau? then c
      else if e.Short? then c.(pc := Drain(i + 1, 0))
      else if opt.decodes(e.chunk) then
        c.(pc := Drain(i, b + 1), dispatched := c.dispatched + [(c.snapshot[i], e.chunk)])
      else c.(pc := Drain(i + 1, 0), undecodable := c.undecodable + 1)
    case RetireQuery(i, kept) =>
      c.(pc := Retire(i + 1, if e.bytes > 0 then kept + [c.registry[i]] else kept))
    case Check(i) =>
      if e.bytes > 0 then c.(pc := Top) else c.(pc := Check(i + 1))
  }

  function Next(opt: Options, c: Control, m: Move): Control
    requires Enabled(opt, c, m)
  {
    match m
    case Register(t) =>
      var id := |c.alive|;
      c.(registry := c.registry + [id], alive := c.alive + [true], calls := c.calls + [Idle], slots := c.slots[t := id])
    case OnProducer(t, e) =>
      var id := c.slots[t];
      (match e {
         case Start => c.(calls := c.calls[id := Writing], started := c.started + 1)
         case Reject => c.(calls := c.calls[id := Rejected])
         case Commit(_) => c.(calls := c.calls[id := Idle], completed := c.completed + 1)
         case _ => c
       })
    case CountDrop(t) =>
      c.(calls := c.calls[c.slots[t] := Idle], dropped := c.dropped + 1, completed := c.completed + 1)
    case Exit(t) => c.(alive := c.alive[c.slots[t] := false], slots := c.slots - {t})
    case StoreFlag(counts) => if c.flag then c else c.(flag := true, mark := counts)
    case LoadFlag =>
      if c.flag && !opt.waitForDrain then c.(shuttingDown := true, pc := Done)
      else c.(shuttingDown := c.flag, pc := Snap)
    case TakeSnapshot => c.(snapshot := c.registry, pc := Drain(0, 0))
    case NextConsumer =>
      if c.pc.i >= |c.snapshot| then c.(pc := Retire(0, []), passes := c.passes + 1)
      else c.(pc := Drain(c.pc.i + 1, 0))
    case LoadAlive =>
      var id := c.registry[c.pc.i];
      if c.alive[id] then c.(pc := Retire(c.pc.i + 1, c.pc.kept + [id])) else c.(pc := RetireQuery(c.pc.i, c.pc.kept))
    case EndRetire => c.(registry := c.pc.kept, pc := Retired)
    case Decide => if c.shuttingDown then c.(pc := Check(0)) else c.(pc := Top)
    case EndCheck => c.(pc := Done)
    case OnConsumer(e) => Observe(opt, c, e)
  }

  /** The queue a move acts on, if any. */
  predicate OnQueue(c: Control, m: Move) {
    (m.OnProducer? && m.t in c.slots) || (m.OnConsumer? && AtQueue(c))
  }

  function QueueOf(c: Control, m: Move): nat
    requires OnQueue(c, m)
  {
    if m.OnProducer? then c.slots[m.t] else WorkerQueue(c)
  }

  datatype Sys = Sys(c: Control, qs: seq<Queue>)

  const INIT := Sys(InitControl(), [])

  function Counts(qs: seq<Queue>): (counts: seq<nat>)
    ensures |counts| == |qs|
    ensures forall i :: 0 <= i < |qs| ==> counts[i] == |qs[i].committed|
  {
    seq(|qs|, i requires 0 <= i < |qs| => |qs[i].committed|)
  }

  /** One step of the whole system. The worker's own loads of a write position
      are sequentially consistent. */
  ghost predicate SysStep(opt: Options, s: Sys, m: Move, s': Sys) {
    && Enabled(opt, s.c, m)
    && s'.c == Next(opt, s.c, m)
    && (if m.Register? then s'.qs == s.qs + [EMPTY]
        else if OnQueue(s.c, m) then
          var id := QueueOf(s.c, m);
          && id < |s.qs| == |s'.qs|
          && s.qs[id].Valid()
          && Step(s.qs[id], m.e, s'.qs[id], true)
          && s'.qs == s.qs[id := s'.qs[id]]
        else s'.qs == s.qs && (m.StoreFlag? ==> m.counts == Counts(s.qs)))
  }

  ghost predicate Run(opt: Options, states: seq<Sys>, moves: seq<Move>) {
    && |states| == |moves| + 1
    && states[0] == INIT
    && forall i {:trigger moves[i]} :: 0 <= i < |moves| ==> SysStep(opt, states[i], moves[i], states[i + 1])
  }
}
