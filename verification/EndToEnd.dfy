/** The pieces together: log calls encoded into per-thread rings, drained by the
    worker, decoded. */
module EndToEnd {
  import opened Wrappers
  import opened Words
  import opened Fifo
  import opened Codec
  import opened Record
  import R = RingMachine
  import opened Protocol
  import opened RingSystem
  import Fairness
  import F = FanOut
  import RecordReader

  /** The rings of a backend on this platform. */
  function Rings(env: Env, capBits: nat, wordBits: nat): R.Config {
    R.Config(capBits, wordBits, HeaderSize(env), header => FrameLength(env, header))
  }

  function Worker(env: Env, waitForDrain: bool): Options {
    Options(waitForDrain, HeaderSize(env), chunk => DecodeRecord(env, chunk).Ok?)
  }

  function Reader(env: Env): RecordReader.Format<RawRecord> {
    RecordReader.Format(HeaderSize(env), header => FrameLength(env, header),
      chunk => match DecodeRecord(env, chunk) case Ok(r) => Some(r) case Err(_) => None)
  }

  lemma Fits(env: Env, capBits: nat, wordBits: nat, waitForDrain: bool)
    requires capBits < wordBits
    ensures Compatible(Rings(env, capBits, wordBits), Worker(env, waitForDrain))
    ensures Rings(env, capBits, wordBits).Cap() == Pow2(capBits) && Rings(env, capBits, wordBits).Modulus() == Pow2(wordBits)
  {
  }

  /** The reader hands on exactly the records that the worker's control counts as decodable. */
  lemma ReaderAgrees(env: Env, waitForDrain: bool, chunk: Chunk)
    ensures Reader(env).decode(chunk).Some? <==> Worker(env, waitForDrain).decodes(chunk)
    ensures DecodeRecord(env, chunk) == (if Reader(env).decode(chunk).Some? then Ok(Reader(env).decode(chunk).value)
                                         else DecodeRecord(env, chunk))
    ensures Worker(env, waitForDrain).decodes(chunk) <==> DecodeRecord(env, chunk).Ok?
    ensures Worker(env, waitForDrain).waitForDrain == waitForDrain
  {
  }

  /** What the log macro writes is what the rings and the reader require of a chunk. */
  lemma LogCallsAreFramed(env: Env, capBits: nat, wordBits: nat, call: LogCall)
    requires ValidCall(env, call)
    ensures Rings(env, capBits, wordBits).Framed(EncodeRecord(env, call))
    ensures Reader(env).Framed(EncodeRecord(env, call))
  {
    RecordFramesItself(env, call);
  }

  /** The record a log call should come out as. */
  function Outcome(env: Env, call: LogCall): Decoded<RawRecord>
    requires ValidCall(env, call)
  {
    match Meanings(env, call.args)
    case Err(e) => Err(e)
    case Ok(ds) => Ok(RawRecord(call.timestamp, call.logger, call.metadata, ds))
  }

  /** For every interleaving of any number of threads with the worker: if the
      worker has stopped with draining on, the j-th log call that a thread had
      completed when the flag was stored has been read back from the ring as the
      j-th record of that thread, decodes to what was logged, and if it does decode
      has been dispatched behind the decodable ones before it. */
  lemma EveryLogCallArrives(env: Env, capBits: nat, wordBits: nat, states: seq<RSys>, moves: seq<RMove>,
                            n: nat, k: nat, id: nat, j: nat, call: LogCall)
    requires capBits < wordBits && ValidCall(env, call)
    requires RRun(Rings(env, capBits, wordBits), Worker(env, true), states, moves)
    requires n < |moves| && moves[n].Plain? && moves[n].m.StoreFlag? && !states[n].c.flag
    requires n < k < |states| && states[k].c.pc.Done?
    requires id < |states[n].rings| && j < |states[n].rings[id].chunks|
    requires states[n].rings[id].chunks[j] == EncodeRecord(env, call)
    ensures id < |states[k].rings| && j < |states[k].rings[id].delivered|
    ensures DecodeRecord(env, states[k].rings[id].delivered[j]) == Outcome(env, call)
    ensures Outcome(env, call).Ok? ==>
      var p := |T.Decodable(Worker(env, true), states[k].rings[id].delivered[..j])|;
      p < |T.Project(states[k].c.dispatched, id)| && T.Project(states[k].c.dispatched, id)[p] == EncodeRecord(env, call)
  {
    var cfg, opt := Rings(env, capBits, wordBits), Worker(env, true);
    Fits(env, capBits, wordBits, true);
    NoRecordLost(cfg, opt, states, moves, n, k, id);
    var delivered := states[k].rings[id].delivered;
    assert delivered[j] == states[n].rings[id].chunks[j];
    RecordRoundTrip(env, call);
    if Outcome(env, call).Ok? {
      DispatchedAreDelivered(cfg, opt, states, moves, k, id);
      assert opt.decodes(delivered[j]);
      T.DecodableAt(opt, delivered, j);
    }
  }

  /** Bounded waiting on the bytes: `ahead` records before it, at most
      `ahead / 32 + 1` passes, as long as it and those before it decode. */
  lemma DeliveredWithinPasses(cfg: R.Config, opt: Options, states: seq<RSys>, moves: seq<RMove>,
                              a: nat, b: nat, id: nat, ahead: nat)
    requires Compatible(cfg, opt) && RRun(cfg, opt, states, moves) && a <= b < |states|
    requires !Fairness.InDrain(states[a].c) && id < |states[a].rings|
    requires |states[a].rings[id].delivered| + ahead < |states[a].rings[id].chunks|
    requires forall j :: |states[a].rings[id].delivered| <= j <= |states[a].rings[id].delivered| + ahead ==> opt.decodes(states[a].rings[id].chunks[j])
    requires states[b].c.passes >= states[a].c.passes + ahead / 32 + 1
    ensures id < |states[b].rings|
    ensures states[a].rings[id].chunks[..|states[a].rings[id].delivered| + ahead + 1] <= states[b].rings[id].delivered
  {
    RunRefines(cfg, opt, states, moves);
    var ss, ms := AbsStates(states), AbsMoves(cfg, states, moves);
    Fairness.BoundedWaiting(opt, ss, ms, a, b, id, ahead);
    T.RunGrows(opt, ss, ms, a, b, id);
    RRunInv(cfg, opt, states, moves, b);
  }

  // ---- To the sinks -------------------------------------------------------------------

  /** What the worker looks up: the level of a call site and the sinks of a logger. */
  datatype Directory = Directory(levelOf: nat -> nat, sinksOf: nat -> seq<F.Sink>)

  /** `ds` is the worker's dispatch log handed to the sinks, with any outcomes: each
      record decoded, with the sinks of its own logger, and past its call's gate. */
  ghost predicate HandedOn(env: Env, dir: Directory, log: seq<(nat, Chunk)>, ds: seq<F.Dispatch>) {
    && |ds| == |log| && F.AllValid(ds)
    && forall i :: 0 <= i < |ds| ==>
         && DecodeRecord(env, log[i].1) == Ok(ds[i].rec.raw)
         && ds[i].rec.level == dir.levelOf(ds[i].rec.raw.metadata) && ds[i].sinks == dir.sinksOf(ds[i].rec.raw.logger)
         && ds[i].rec.level >= ds[i].rec.gate
  }

  /** Every record in the worker's dispatch log has been decoded. */
  lemma DispatchedDecode(env: Env, capBits: nat, wordBits: nat, wait: bool, states: seq<RSys>, moves: seq<RMove>, n: nat, i: nat)
    requires capBits < wordBits && RRun(Rings(env, capBits, wordBits), Worker(env, wait), states, moves)
    requires n < |states| && i < |states[n].c.dispatched|
    ensures DecodeRecord(env, states[n].c.dispatched[i].1).Ok?
  {
    var cfg, opt := Rings(env, capBits, wordBits), Worker(env, wait);
    Fits(env, capBits, wordBits, wait);
    RunRefines(cfg, opt, states, moves);
    T.DispatchedInCommitOrder(opt, AbsStates(states), AbsMoves(cfg, states, moves), n);
    assert opt.decodes(AbsStates(states)[n].c.dispatched[i].1);
  }

  /** From the macro to the sink. In the situation above, the log call is dispatch `d`
      of the worker's log, behind exactly the decodable earlier calls of its thread,
      and every sink has been given it exactly as often as promised, after all it was
      given earlier and before all it was given later. */
  lemma EveryLogCallReachesItsSinks(env: Env, capBits: nat, wordBits: nat, states: seq<RSys>, moves: seq<RMove>,
                                    n: nat, k: nat, id: nat, j: nat, call: LogCall,
                                    dir: Directory, ds: seq<F.Dispatch>, s: nat) returns (d: nat)
    requires capBits < wordBits && ValidCall(env, call) && Outcome(env, call).Ok?
    requires RRun(Rings(env, capBits, wordBits), Worker(env, true), states, moves)
    requires n < |moves| && moves[n].Plain? && moves[n].m.StoreFlag? && !states[n].c.flag
    requires n < k < |states| && states[k].c.pc.Done?
    requires id < |states[n].rings| && j < |states[n].rings[id].chunks|
    requires states[n].rings[id].chunks[j] == EncodeRecord(env, call)
    requires HandedOn(env, dir, states[k].c.dispatched, ds)
    ensures id < |states[k].rings| && j < |states[k].rings[id].delivered| && d < |ds|
    ensures |T.Project(states[k].c.dispatched[..d], id)| == |T.Decodable(Worker(env, true), states[k].rings[id].delivered[..j])|
    ensures ds[d].rec.raw == Outcome(env, call).value && ds[d].sinks == dir.sinksOf(call.logger)
    ensures F.AllValid(ds[..d]) && F.AllValid(ds[d + 1..])
    ensures F.GivenTo(F.AllCalls(ds), s) ==
      F.ReceivedBy(ds[..d], s) + F.Repeat(ds[d].rec, F.Copies(ds[d], s, |ds[d].sinks|)) + F.ReceivedBy(ds[d + 1..], s)
  {
    EveryLogCallArrives(env, capBits, wordBits, states, moves, n, k, id, j, call);
    var log := states[k].c.dispatched;
    d := T.ProjectPlace(log, id, |T.Decodable(Worker(env, true), states[k].rings[id].delivered[..j])|);
    assert DecodeRecord(env, log[d].1) == Ok(ds[d].rec.raw);
    RecordRoundTrip(env, call);
    F.SinkReceivesExactly(ds, s);
    F.ReceivedAt(ds, d, s);
  }
}
