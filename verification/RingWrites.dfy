/** What `write` owes the log call: refused only when the record cannot fit, decided on
    the right positions, finished in a bounded number of steps, and committed unchanged. */
module RingWrites {
  import opened Fifo
  import opened RingMachine
  import opened RingProofs

  /** `n` more bytes fit when chunk boundary `k` is taken for the read position. */
  predicate FitsBehind(cfg: Config, s: Ring, k: nat, n: nat)
    requires k <= |s.chunks|
  {
    At(s, |s.chunks|) - At(s, k) + n <= cfg.Cap()
  }

  /** The first decision of `write`, on the cached read position: too large for the ring,
      accepted at once, or to be decided again after a reload. */
  lemma CheckDecides(cfg: Config, s: Ring)
    requires cfg.Valid() && Inv(cfg, s) && Enabled(cfg, s, PCheck)
    ensures var data, t, e := s.producer.data, Apply(cfg, s, PCheck), EventOf(cfg, s, PCheck);
      && t == s.(producer := t.producer)
      && (|data| > cfg.Cap() ==> t.producer == PIdle && e == Reject)
      && (|data| <= cfg.Cap() && FitsBehind(cfg, s, s.seenRead, |data|) ==> t.producer == PFilling(data, 0) && e == Tau)
      && (|data| <= cfg.Cap() && !FitsBehind(cfg, s, s.seenRead, |data|) ==> t.producer == PWaiting(data) && e == Tau)
  {
    FreeExact(cfg, s);
  }

  /** The second decision, on the reloaded position, which is remembered. */
  lemma LoadDecides(cfg: Config, s: Ring, k: nat)
    requires cfg.Valid() && Inv(cfg, s) && Enabled(cfg, s, PLoad(k))
    ensures k <= |s.delivered| <= |s.chunks|
    ensures var data, t, e := s.producer.data, Apply(cfg, s, PLoad(k)), EventOf(cfg, s, PLoad(k));
      && t == s.(producer := t.producer, seenRead := k, cachedRead := At(s, k) % cfg.Modulus())
      && (FitsBehind(cfg, s, k, |data|) ==> t.producer == PFilling(data, 0) && e == Tau)
      && (!FitsBehind(cfg, s, k, |data|) ==> t.producer == PIdle && e == Reject)
  {
    CacheReadInv(cfg, s, k);
    FreeExact(cfg, s.(cachedRead := s.readLog[k], seenRead := k));
  }

  /** In every run a record is refused only if it is larger than the ring, or does not
      fit behind a read position loaded during this very call. */
  lemma RefusedOnlyIfFull(cfg: Config, states: seq<Ring>, actions: seq<Action>, n: nat)
    requires cfg.Valid() && Run(cfg, states, actions) && n < |actions|
    requires EventOf(cfg, states[n], actions[n]) == Reject
    ensures var s, a := states[n], actions[n];
      && (s.producer.PChecking? || s.producer.PWaiting?)
      && (|s.producer.data| > cfg.Cap()
          || (a.PLoad? && a.k <= |s.chunks| && !FitsBehind(cfg, s, a.k, |s.producer.data|)))
  {
    RunInv(cfg, states, actions, n);
    RefusalIs(cfg, states[n], actions[n]);
  }

  lemma RefusalIs(cfg: Config, s: Ring, a: Action)
    requires cfg.Valid() && Inv(cfg, s) && Enabled(cfg, s, a) && EventOf(cfg, s, a) == Reject
    ensures s.producer.PChecking? || s.producer.PWaiting?
    ensures |s.producer.data| > cfg.Cap() || (a.PLoad? && a.k <= |s.chunks| && !FitsBehind(cfg, s, a.k, |s.producer.data|))
  {
    if a.PCheck? {
      CheckDecides(cfg, s);
    } else if a.PLoad? {
      LoadDecides(cfg, s, a.k);
    }
  }

  /** With nothing unread and the latest read position, whatever fits the ring is accepted. */
  lemma EmptyRingAccepts(cfg: Config, s: Ring, a: Action)
    requires cfg.Valid() && Inv(cfg, s) && Enabled(cfg, s, a) && (a.PCheck? || a.PLoad?)
    requires |s.delivered| == |s.chunks| && |s.producer.data| <= cfg.Cap()
    requires a.PLoad? ==> a.k + 1 == |s.readLog|
    ensures EventOf(cfg, s, a) != Reject
  {
    if EventOf(cfg, s, a) == Reject {
      RefusalIs(cfg, s, a);
    }
  }

  // ---- Wait-free ---------------------------------------------------------------------

  /** How many steps of its own a write still takes at most. */
  function StepsLeft(p: Producer): nat {
    match p
    case PIdle => 0
    case PChecking(data) => |data| + 3
    case PWaiting(data) => |data| + 2
    case PFilling(data, done) => if done < |data| then |data| - done + 1 else 1
    case PWild => 0
  }

  /** A write in progress can always go on, each step of its own brings it nearer to the
      end, and the consumer does not set it back: a call takes at most |data| + 3 steps. */
  lemma WriteIsWaitFree(cfg: Config, s: Ring)
    requires cfg.Valid() && Inv(cfg, s)
    ensures !s.producer.PIdle? ==> exists a :: IsProducerAction(a) && Enabled(cfg, s, a)
    ensures forall a {:trigger Apply(cfg, s, a)} :: Enabled(cfg, s, a) && IsProducerAction(a) && !a.PStart? ==>
              StepsLeft(Apply(cfg, s, a).producer) < StepsLeft(s.producer)
    ensures forall a {:trigger Apply(cfg, s, a)} :: Enabled(cfg, s, a) && !IsProducerAction(a) ==>
              Apply(cfg, s, a).producer == s.producer
  {
    if !s.producer.PIdle? {
      var a := NextWrite(s);
      assert IsProducerAction(a) && Enabled(cfg, s, a);
    }
    forall a | Enabled(cfg, s, a) && IsProducerAction(a) && !a.PStart?
      ensures StepsLeft(Apply(cfg, s, a).producer) < StepsLeft(s.producer)
    {
      WriteStep(cfg, s, a);
    }
  }

  function NextWrite(s: Ring): Action {
    match s.producer
    case PWaiting(_) => PLoad(if |s.readLog| == 0 then 0 else |s.readLog| - 1)
    case PFilling(data, done) => if done < |data| then PFill else PCommit
    case _ => PCheck
  }

  lemma WriteStep(cfg: Config, s: Ring, a: Action)
    requires WordsOk(cfg, s) && Enabled(cfg, s, a) && IsProducerAction(a) && !a.PStart?
    ensures StepsLeft(Apply(cfg, s, a).producer) < StepsLeft(s.producer)
  {
  }

  // ---- Committed as asked --------------------------------------------------------------

  /** The event of step `j` of a run. */
  ghost function Seen(cfg: Config, states: seq<Ring>, actions: seq<Action>, j: nat): Event
    requires Run(cfg, states, actions) && j < |actions|
  {
    EventOf(cfg, states[j], actions[j])
  }

  predicate EndsCall(e: Event) {
    e.Commit? || e.Reject?
  }

  /** A call for `data` is under way that began with action `i`. */
  ghost predicate Since(cfg: Config, states: seq<Ring>, actions: seq<Action>, n: nat, i: nat, data: Chunk)
    requires Run(cfg, states, actions) && n < |states|
  {
    i < n && actions[i] == PStart(data) && forall j :: i < j < n ==> !EndsCall(Seen(cfg, states, actions, j))
  }

  function DataOf(p: Producer): Chunk {
    match p
    case PChecking(data) => data
    case PWaiting(data) => data
    case PFilling(data, _) => data
    case _ => []
  }

  lemma DataKept(cfg: Config, s: Ring, a: Action)
    requires WordsOk(cfg, s) && Enabled(cfg, s, a) && !Apply(cfg, s, a).producer.PWild? && !s.producer.PWild?
    ensures var t, e := Apply(cfg, s, a), EventOf(cfg, s, a);
      && (a.PStart? ==> DataOf(t.producer) == a.data)
      && (!a.PStart? && !t.producer.PIdle? ==> !s.producer.PIdle? && DataOf(t.producer) == DataOf(s.producer) && !EndsCall(e))
      && (e.Commit? ==> !s.producer.PIdle? && e.chunk == DataOf(s.producer) && t.chunks == s.chunks + [e.chunk])
  {
  }

  lemma DataKeptAt(cfg: Config, states: seq<Ring>, actions: seq<Action>, j: nat)
    requires cfg.Valid() && Run(cfg, states, actions) && j < |actions|
    ensures var s, t, e := states[j], states[j + 1], Seen(cfg, states, actions, j);
      && (actions[j].PStart? ==> DataOf(t.producer) == actions[j].data)
      && (!actions[j].PStart? && !t.producer.PIdle? ==> !s.producer.PIdle? && DataOf(t.producer) == DataOf(s.producer) && !EndsCall(e))
      && (e.Commit? ==> !s.producer.PIdle? && e.chunk == DataOf(s.producer) && t.chunks == s.chunks + [e.chunk])
  {
    RunInv(cfg, states, actions, j);
    RunInv(cfg, states, actions, j + 1);
    DataKept(cfg, states[j], actions[j]);
  }

  lemma {:induction false} CallUnderWay(cfg: Config, states: seq<Ring>, actions: seq<Action>, n: nat) returns (i: nat)
    requires cfg.Valid() && Run(cfg, states, actions) && n < |states| && !states[n].producer.PIdle?
    ensures Since(cfg, states, actions, n, i, DataOf(states[n].producer))
  {
    assert n > 0;
    var m := n - 1;
    DataKeptAt(cfg, states, actions, m);
    if actions[m].PStart? {
      i := m;
    } else {
      i := CallUnderWay(cfg, states, actions, m);
    }
  }

  /** What is committed is, byte for byte, what the one call under way had asked for. */
  lemma CommitsWhatWasAsked(cfg: Config, states: seq<Ring>, actions: seq<Action>, n: nat) returns (i: nat)
    requires cfg.Valid() && Run(cfg, states, actions) && n < |actions| && Seen(cfg, states, actions, n).Commit?
    ensures Since(cfg, states, actions, n, i, Seen(cfg, states, actions, n).chunk)
    ensures states[n + 1].chunks == states[n].chunks + [Seen(cfg, states, actions, n).chunk]
  {
    DataKeptAt(cfg, states, actions, n);
    i := CallUnderWay(cfg, states, actions, n);
  }
}
