/** The worker's loop as an object that prunes its consumer list in place and drains
    the rings of the consumers, from the pass that first finds the shutdown flag set.
    Producers have stopped; the interleavings with producers before that are the
    protocol's subject. */
module Runner {
  import opened Fifo
  import opened RecordReader
  import SpscQueue
  import T = ProtocolTheorems

  /** A registered consumer: its queue and whether its thread is alive. */
  datatype Consumer = Consumer(id: nat, queue: SpscQueue.Queue, alive: bool)

  /** What a consumer holds. */
  datatype Holding = Holding(id: nat, unread: seq<Chunk>, alive: bool)

  predicate DistinctIds(hs: seq<Holding>) {
    forall i, j :: 0 <= i < j < |hs| ==> hs[i].id != hs[j].id
  }

  /** The unread records of queue `id`; a queue that is not registered has none. */
  function Remaining(hs: seq<Holding>, id: nat): seq<Chunk> {
    if hs == [] then [] else if hs[0].id == id then hs[0].unread else Remaining(hs[1..], id)
  }

  function Tagged(id: nat, chunks: seq<Chunk>): seq<(nat, Chunk)> {
    if chunks == [] then [] else Tagged(id, chunks[..|chunks| - 1]) + [(id, chunks[|chunks| - 1])]
  }

  /** Everything queue `id` has yielded, then everything it still holds. */
  function Ledger(log: seq<(nat, Chunk)>, hs: seq<Holding>, id: nat): seq<Chunk> {
    T.Project(log, id) + Remaining(hs, id)
  }

  function Total(hs: seq<Holding>): nat {
    if hs == [] then 0 else |hs[0].unread| + Total(hs[1..])
  }

  function Retained(hs: seq<Holding>): seq<Holding> {
    if hs == [] then []
    else
      var last := hs[|hs| - 1];
      Retained(hs[..|hs| - 1]) + if last.alive || last.unread != [] then [last] else []
  }

  lemma TaggedLast(log: seq<(nat, Chunk)>, id: nat, chunks: seq<Chunk>)
    requires chunks != []
    ensures log + Tagged(id, chunks) == log + Tagged(id, chunks[..|chunks| - 1]) + [(id, chunks[|chunks| - 1])]
  {
  }

  lemma {:induction false} ProjectTagged(log: seq<(nat, Chunk)>, id: nat, chunks: seq<Chunk>, j: nat)
    ensures T.Project(log + Tagged(id, chunks), j) == T.Project(log, j) + if j == id then chunks else []
  {
    if chunks == [] {
      assert log + Tagged(id, chunks) == log;
    } else {
      var init, last := chunks[..|chunks| - 1], chunks[|chunks| - 1];
      ProjectTagged(log, id, init, j);
      T.ProjectAppend(log + Tagged(id, init), (id, last), j);
      TaggedLast(log, id, chunks);
      AppendLast(T.Project(log, j), init, last);
      assert init + [last] == chunks;
    }
  }

  lemma AppendLast(front: seq<Chunk>, init: seq<Chunk>, last: Chunk)
    ensures front + init + [last] == front + (init + [last])
  {
  }

  lemma {:induction false} RemainingUpdate(hs: seq<Holding>, i: nat, unread: seq<Chunk>, id: nat)
    requires DistinctIds(hs) && i < |hs|
    ensures Remaining(hs, hs[i].id) == hs[i].unread
    ensures Remaining(hs[i := hs[i].(unread := unread)], id) == if id == hs[i].id then unread else Remaining(hs, id)
  {
    var hs' := hs[i := hs[i].(unread := unread)];
    if i > 0 {
      assert hs'[1..] == hs[1..][i - 1 := hs[i].(unread := unread)];
      RemainingUpdate(hs[1..], i - 1, unread, id);
    } else {
      assert hs'[1..] == hs[1..];
    }
  }

  lemma {:induction false} RemainingNone(hs: seq<Holding>, id: nat)
    requires forall i :: 0 <= i < |hs| ==> hs[i].id != id
    ensures Remaining(hs, id) == []
  {
    if hs != [] {
      RemainingNone(hs[1..], id);
    }
  }

  lemma {:induction false} RemainingAppend(hs: seq<Holding>, c: Holding, id: nat)
    requires forall i :: 0 <= i < |hs| ==> hs[i].id != c.id
    ensures Remaining(hs + [c], id) == if id == c.id then c.unread else Remaining(hs, id)
  {
    if hs == [] {
    } else {
      assert (hs + [c])[1..] == hs[1..] + [c];
      RemainingAppend(hs[1..], c, id);
    }
  }

  lemma {:induction false} TotalUpdate(hs: seq<Holding>, i: nat, unread: seq<Chunk>)
    requires i < |hs|
    ensures Total(hs[i := hs[i].(unread := unread)]) == Total(hs) - |hs[i].unread| + |unread|
  {
    var hs' := hs[i := hs[i].(unread := unread)];
    if i > 0 {
      assert hs'[1..] == hs[1..][i - 1 := hs[i].(unread := unread)];
      TotalUpdate(hs[1..], i - 1, unread);
    } else {
      assert hs'[1..] == hs[1..];
    }
  }

  lemma {:induction false} TotalAppend(hs: seq<Holding>, c: Holding)
    ensures Total(hs + [c]) == Total(hs) + |c.unread|
  {
    if hs == [] {
    } else {
      assert (hs + [c])[1..] == hs[1..] + [c];
      TotalAppend(hs[1..], c);
    }
  }

  lemma RetainedAppend(hs: seq<Holding>, c: Holding)
    ensures Retained(hs + [c]) == if c.alive || c.unread != [] then Retained(hs) + [c] else Retained(hs)
  {
    assert (hs + [c])[..|hs|] == hs;
  }

  /** Retirement keeps exactly the consumers that are alive or not empty. */
  lemma {:induction false} RetainedExactly(hs: seq<Holding>)
    ensures forall c :: c in Retained(hs) <==> c in hs && (c.alive || c.unread != [])
    ensures Total(Retained(hs)) == Total(hs)
  {
    if hs != [] {
      var init, last := hs[..|hs| - 1], hs[|hs| - 1];
      assert hs == init + [last];
      RetainedExactly(init);
      RetainedAppend(init, last);
      TotalAppend(init, last);
      TotalAppend(Retained(init), last);
    }
  }

  /** The ids in the retained list are ids of the list. */
  lemma RetainedId(hs: seq<Holding>, i: nat)
    requires i < |Retained(hs)|
    ensures exists j :: 0 <= j < |hs| && hs[j].id == Retained(hs)[i].id
  {
    RetainedExactly(hs);
    assert Retained(hs)[i] in hs;
    var j :| 0 <= j < |hs| && hs[j] == Retained(hs)[i];
    assert hs[j].id == Retained(hs)[i].id;
  }

  /** So it changes what no queue still holds. */
  lemma {:induction false} RetainedRemaining(hs: seq<Holding>, id: nat)
    requires DistinctIds(hs)
    ensures DistinctIds(Retained(hs))
    ensures Remaining(Retained(hs), id) == Remaining(hs, id)
  {
    if hs != [] {
      var init, last := hs[..|hs| - 1], hs[|hs| - 1];
      assert hs == init + [last];
      RetainedRemaining(init, id);
      RetainedAppend(init, last);
      forall i | 0 <= i < |Retained(init)| ensures Retained(init)[i].id != last.id {
        RetainedId(init, i);
      }
      RemainingAppend(init, last, id);
      RemainingAppend(Retained(init), last, id);
      if id == last.id {
        RemainingNone(Retained(init), id);
      }
    }
  }

  /** A batch moves records from what a queue holds to what it has yielded. */
  lemma LedgerDrain(log: seq<(nat, Chunk)>, hs: seq<Holding>, i: nat, n: nat, id: nat)
    requires DistinctIds(hs) && i < |hs| && n <= |hs[i].unread|
    ensures Ledger(log + Tagged(hs[i].id, hs[i].unread[..n]), hs[i := hs[i].(unread := hs[i].unread[n..])], id) == Ledger(log, hs, id)
  {
    var c := hs[i];
    ProjectTagged(log, c.id, c.unread[..n], id);
    RemainingUpdate(hs, i, c.unread[n..], id);
    if id == c.id {
      assert c.unread[..n] + c.unread[n..] == c.unread;
    }
  }

  lemma {:induction false} TotalPositive(hs: seq<Holding>)
    ensures Total(hs) > 0 <==> exists i :: 0 <= i < |hs| && hs[i].unread != []
  {
    if hs != [] {
      TotalPositive(hs[1..]);
      if i :| 0 <= i < |hs| && hs[i].unread != [] {
        if i > 0 {
          assert hs[1..][i - 1].unread != [];
        }
      }
      if i :| 0 <= i < |hs[1..]| && hs[1..][i].unread != [] {
        assert hs[i + 1].unread != [];
      }
    }
  }

  lemma {:induction false} TotalZero(hs: seq<Holding>, id: nat)
    requires forall i :: 0 <= i < |hs| ==> hs[i].unread == []
    ensures Total(hs) == 0 && Remaining(hs, id) == []
  {
    if hs != [] {
      TotalZero(hs[1..], id);
    }
  }

  /** The records of a log, whatever queue they came from. */
  function Chunks(log: seq<(nat, Chunk)>): (cs: seq<Chunk>)
    ensures |cs| == |log| && forall i :: 0 <= i < |log| ==> cs[i] == log[i].1
  {
    seq(|log|, i requires 0 <= i < |log| => log[i].1)
  }

  lemma {:induction false} ChunksTagged(log: seq<(nat, Chunk)>, id: nat, chunks: seq<Chunk>)
    ensures Chunks(log + Tagged(id, chunks)) == Chunks(log) + chunks
  {
    if chunks == [] {
      assert log + Tagged(id, chunks) == log;
    } else {
      var init, last := chunks[..|chunks| - 1], chunks[|chunks| - 1];
      ChunksTagged(log, id, init);
      TaggedLast(log, id, chunks);
      AppendLast(Chunks(log), init, last);
      assert init + [last] == chunks;
    }
  }

  /** A batch keeps in step what was consumed and what was processed. */
  lemma ProcessedStep<T>(format: Format<T>, log: seq<(nat, Chunk)>, id: nat, chunks: seq<Chunk>)
    ensures format.DecodedOf(Chunks(log + Tagged(id, chunks))) == format.DecodedOf(Chunks(log)) + format.DecodedOf(chunks)
  {
    ChunksTagged(log, id, chunks);
    format.DecodedOfAppend(Chunks(log), chunks);
  }

  // ---- One batch, on what the consumers hold ------------------------------------------

  /** The records of `n` unread ones move from a holding to the log. */
  function Batched(hs: seq<Holding>, i: nat, n: nat): seq<Holding>
    requires i < |hs| && n <= |hs[i].unread|
  {
    hs[i := hs[i].(unread := hs[i].unread[n..])]
  }

  ghost predicate SameLedger(log: seq<(nat, Chunk)>, hs: seq<Holding>, log': seq<(nat, Chunk)>, hs': seq<Holding>) {
    forall id {:trigger Ledger(log', hs', id)} :: Ledger(log', hs', id) == Ledger(log, hs, id)
  }

  function BatchOf<T>(format: Format<T>, h: Holding): (n: nat)
    ensures n <= |h.unread|
  {
    format.BatchSize(h.unread, MAX_BATCH_PER_CONSUMER)
  }

  /** A holding after its turn in a round. */
  function Served<T>(format: Format<T>, h: Holding): Holding {
    h.(unread := h.unread[BatchOf(format, h)..])
  }

  /** What the first `i` consumers yield in a round, one batch after the other. */
  function RoundLog<T>(format: Format<T>, hs: seq<Holding>, i: nat): seq<(nat, Chunk)>
    requires i <= |hs|
  {
    if i == 0 then []
    else RoundLog(format, hs, i - 1) + Tagged(hs[i - 1].id, hs[i - 1].unread[..BatchOf(format, hs[i - 1])])
  }

  /** `i` consumers into a round that began with `was` and `before`: they have given up
      their batches, in order, and the others have not been touched. */
  ghost predicate Turns<T>(format: Format<T>, before: seq<(nat, Chunk)>, was: seq<Holding>, log: seq<(nat, Chunk)>, hs: seq<Holding>, i: nat) {
    && i <= |hs| == |was|
    && (forall j :: 0 <= j < |hs| ==> hs[j] == if j < i then Served(format, was[j]) else was[j])
    && log == before + RoundLog(format, was, i)
  }

  /** What that means for each queue and for the total. */
  ghost predicate Round(before: seq<(nat, Chunk)>, was: seq<Holding>, log: seq<(nat, Chunk)>, hs: seq<Holding>, i: nat) {
    && i <= |hs| == |was| && DistinctIds(hs)
    && (forall j :: i <= j < |hs| ==> hs[j] == was[j])
    && SameLedger(before, was, log, hs)
    && Total(hs) <= Total(was)
    && ((exists j :: 0 <= j < i && was[j].unread != []) ==> Total(hs) < Total(was))
  }

  lemma TurnsStep<T>(format: Format<T>, before: seq<(nat, Chunk)>, was: seq<Holding>, log: seq<(nat, Chunk)>, hs: seq<Holding>, i: nat)
    requires Turns(format, before, was, log, hs, i) && i < |hs|
    ensures var n := BatchOf(format, hs[i]);
      Turns(format, before, was, log + Tagged(hs[i].id, hs[i].unread[..n]), Batched(hs, i, n), i + 1)
  {
    LogAppend(before, RoundLog(format, was, i), Tagged(was[i].id, was[i].unread[..BatchOf(format, was[i])]));
  }

  lemma LogAppend(a: seq<(nat, Chunk)>, b: seq<(nat, Chunk)>, c: seq<(nat, Chunk)>)
    ensures a + (b + c) == a + b + c
  {
  }

  lemma RoundStep(before: seq<(nat, Chunk)>, was: seq<Holding>, log: seq<(nat, Chunk)>, hs: seq<Holding>, i: nat, n: nat)
    requires Round(before, was, log, hs, i) && i < |hs| && n <= |hs[i].unread| && (hs[i].unread != [] ==> n > 0)
    ensures Round(before, was, log + Tagged(hs[i].id, hs[i].unread[..n]), Batched(hs, i, n), i + 1)
  {
    var log', hs' := log + Tagged(hs[i].id, hs[i].unread[..n]), Batched(hs, i, n);
    forall id ensures Ledger(log', hs', id) == Ledger(before, was, id) {
      LedgerDrain(log, hs, i, n, id);
      assert Ledger(log, hs, id) == Ledger(before, was, id);
    }
    TotalUpdate(hs, i, hs[i].unread[n..]);
  }

  // ---- The consumers' rings -------------------------------------------------------------

  ghost function QueuesOf(cs: seq<Consumer>): set<object> {
    set c | c in cs :: c.queue
  }

  ghost function BuffersOf(cs: seq<Consumer>): set<object> {
    set c | c in cs :: c.queue.buf
  }

  ghost predicate SoundQueue<T(!new)>(format: Format<T>, q: SpscQueue.Queue)
    reads q, q.buf
  {
    q.Valid() && format.AllFramed(q.Unread())
  }

  /** One ring per consumer, each valid and holding framed records. */
  ghost predicate Sound<T(!new)>(format: Format<T>, cs: seq<Consumer>)
    reads QueuesOf(cs), BuffersOf(cs)
  {
    && format.header >= 1
    && (forall i, j :: 0 <= i < j < |cs| ==> cs[i].queue != cs[j].queue)
    && (forall i :: 0 <= i < |cs| ==> SoundQueue(format, cs[i].queue))
  }

  ghost function HoldingOf(c: Consumer): Holding
    reads c.queue
    requires c.queue.consumed <= |c.queue.chunks|
  {
    Holding(c.id, c.queue.Unread(), c.alive)
  }

  /** The ghost holdings are what the rings hold. */
  ghost predicate Holds(cs: seq<Consumer>, hs: seq<Holding>)
    reads QueuesOf(cs)
  {
    && |hs| == |cs|
    && forall i :: 0 <= i < |cs| ==> cs[i].queue.consumed <= |cs[i].queue.chunks| && hs[i] == HoldingOf(cs[i])
  }

  /** One batch from one ring. */
  method DrainQueue<T(!new)>(format: Format<T>, q: SpscQueue.Queue) returns (records: seq<T>)
    requires SoundQueue(format, q) && format.header >= 1
    modifies q
    ensures SoundQueue(format, q)
    ensures format.BatchDone(old(q.Unread()), q.Unread(), records)
  {
    var didWork;
    records, didWork := format.DrainConsumer(q);
  }

  /** Consumer `i` is as `h` says. */
  ghost predicate HeldBy<T(!new)>(format: Format<T>, c: Consumer, h: Holding)
    reads c.queue, c.queue.buf
  {
    SoundQueue(format, c.queue) && h == HoldingOf(c)
  }

  lemma AllHeld<T(!new)>(format: Format<T>, cs: seq<Consumer>, hs: seq<Holding>)
    requires format.header >= 1 && |hs| == |cs| && forall i, j :: 0 <= i < j < |cs| ==> cs[i].queue != cs[j].queue
    requires forall i :: 0 <= i < |cs| ==> HeldBy(format, cs[i], hs[i])
    ensures Sound(format, cs) && Holds(cs, hs)
  {
    forall i | 0 <= i < |cs| ensures SoundQueue(format, cs[i].queue) && hs[i] == HoldingOf(cs[i]) {
      assert HeldBy(format, cs[i], hs[i]);
    }
  }

  /** One batch from the ring of consumer `i`. */
  method DrainOne<T(!new)>(format: Format<T>, cs: seq<Consumer>, ghost hs: seq<Holding>, i: nat) returns (records: seq<T>)
    requires Sound(format, cs) && Holds(cs, hs) && i < |cs|
    modifies cs[i].queue
    ensures var n := format.BatchSize(hs[i].unread, MAX_BATCH_PER_CONSUMER);
      && Sound(format, cs) && Holds(cs, Batched(hs, i, n)) && records == format.DecodedOf(hs[i].unread[..n])
  {
    forall j | 0 <= j < |cs| ensures HeldBy(format, cs[j], hs[j]) {
      assert SoundQueue(format, cs[j].queue);
    }
    records := DrainQueue(format, cs[i].queue);
    AllHeld(format, cs, hs[i := HoldingOf(cs[i])]);
  }

  /** `available() > 0` on the ring of consumer `i`. */
  method AskOne<T(!new)>(format: Format<T>, cs: seq<Consumer>, ghost hs: seq<Holding>, i: nat) returns (any: bool)
    requires Sound(format, cs) && Holds(cs, hs) && i < |cs|
    modifies cs[i].queue
    ensures Sound(format, cs) && Holds(cs, hs)
    ensures any <==> hs[i].unread != []
  {
    forall j | 0 <= j < |cs| ensures HeldBy(format, cs[j], hs[j]) {
      assert SoundQueue(format, cs[j].queue);
    }
    any := AskQueue(format, cs[i].queue);
    AllHeld(format, cs, hs);
  }

  method AskQueue<T(!new)>(format: Format<T>, q: SpscQueue.Queue) returns (any: bool)
    requires SoundQueue(format, q) && format.header >= 1
    modifies q
    ensures SoundQueue(format, q) && q.Unread() == old(q.Unread())
    ensures any <==> q.Unread() != []
  {
    any := format.HoldsRecords(q);
  }

  /** `kept` are the first `i` consumers that retirement keeps, at indices `picks`. */
  ghost predicate Picked(cs: seq<Consumer>, hs: seq<Holding>, i: nat, kept: seq<Consumer>, picks: seq<nat>) {
    && i <= |cs| == |hs| && |picks| == |kept| == |Retained(hs[..i])|
    && (forall a :: 0 <= a < |picks| ==> picks[a] < i && kept[a] == cs[picks[a]] && Retained(hs[..i])[a] == hs[picks[a]])
    && (forall a, b :: 0 <= a < b < |picks| ==> picks[a] != picks[b])
  }

  lemma PickStep(cs: seq<Consumer>, hs: seq<Holding>, i: nat, kept: seq<Consumer>, picks: seq<nat>)
    requires Picked(cs, hs, i, kept, picks) && i < |cs|
    ensures hs[i].alive || hs[i].unread != [] ==> Picked(cs, hs, i + 1, kept + [cs[i]], picks + [i])
    ensures !hs[i].alive && hs[i].unread == [] ==> Picked(cs, hs, i + 1, kept, picks)
  {
    assert hs[..i + 1] == hs[..i] + [hs[i]];
    RetainedAppend(hs[..i], hs[i]);
  }

  lemma PickedSound<T(!new)>(format: Format<T>, cs: seq<Consumer>, hs: seq<Holding>, kept: seq<Consumer>, picks: seq<nat>)
    requires Sound(format, cs) && Holds(cs, hs) && Picked(cs, hs, |cs|, kept, picks)
    ensures Sound(format, kept) && Holds(kept, Retained(hs)) && QueuesOf(kept) <= QueuesOf(cs)
  {
    assert hs[..|cs|] == hs;
    forall i | 0 <= i < |kept| ensures SoundQueue(format, kept[i].queue) && kept[i] in cs {
      assert SoundQueue(format, cs[picks[i]].queue);
    }
    forall i, j | 0 <= i < j < |kept| ensures kept[i].queue != kept[j].queue {
      assert picks[i] != picks[j];
    }
  }

  /** Retired: what is left is alive or not empty, and nothing was lost. */
  ghost predicate Pruned(log: seq<(nat, Chunk)>, was: seq<Holding>, hs: seq<Holding>) {
    && hs == Retained(was) && Total(hs) == Total(was) && SameLedger(log, was, log, hs)
    && forall i :: 0 <= i < |hs| ==> hs[i].alive || hs[i].unread != []
  }

  lemma RetainedKeeps(log: seq<(nat, Chunk)>, hs: seq<Holding>)
    requires DistinctIds(hs)
    ensures DistinctIds(Retained(hs)) && Pruned(log, hs, Retained(hs))
  {
    RetainedExactly(hs);
    RetainedRemaining(hs, 0);
    forall id ensures Ledger(log, Retained(hs), id) == Ledger(log, hs, id) {
      RetainedRemaining(hs, id);
    }
    forall i | 0 <= i < |Retained(hs)| ensures Retained(hs)[i].alive || Retained(hs)[i].unread != [] {
      assert Retained(hs)[i] in Retained(hs);
    }
  }

  /** The test of `retain`: `alive` first, the queue only if it is false. */
  method KeepOne<T(!new)>(format: Format<T>, cs: seq<Consumer>, ghost hs: seq<Holding>, i: nat) returns (keep: bool)
    requires Sound(format, cs) && Holds(cs, hs) && i < |cs|
    modifies cs[i].queue
    ensures Sound(format, cs) && Holds(cs, hs)
    ensures keep <==> hs[i].alive || hs[i].unread != []
  {
    keep := cs[i].alive;
    if !keep {
      keep := AskOne(format, cs, hs, i);
    }
  }

  method Retain<T(!new)>(format: Format<T>, cs: seq<Consumer>, ghost hs: seq<Holding>) returns (kept: seq<Consumer>)
    requires Sound(format, cs) && Holds(cs, hs)
    modifies QueuesOf(cs)
    ensures Sound(format, kept) && Holds(kept, Retained(hs)) && QueuesOf(kept) <= QueuesOf(cs)
  {
    kept := [];
    ghost var picks: seq<nat> := [];
    for i := 0 to |cs|
      invariant Sound(format, cs) && Holds(cs, hs)
      invariant Picked(cs, hs, i, kept, picks)
    {
      var keep := KeepOne(format, cs, hs, i);
      PickStep(cs, hs, i, kept, picks);
      if keep {
        kept, picks := kept + [cs[i]], picks + [i];
      }
    }
    PickedSound(format, cs, hs, kept, picks);
  }

  class BackendRunner<T(!new)> {
    const waitForDrain: bool
    const format: Format<T>
    var consumers: seq<Consumer>
    var processed: seq<T>
    /** Every record consumed so far, with the queue it came from. */
    ghost var log: seq<(nat, Chunk)>
    ghost var holdings: seq<Holding>

    ghost predicate Valid()
      reads this, QueuesOf(consumers), BuffersOf(consumers)
    {
      Sound(format, consumers) && Holds(consumers, holdings) && DistinctIds(holdings) && Accounted()
    }

    /** What was processed is what decodes of what was consumed, in that order. */
    ghost predicate Accounted()
      reads this
    {
      processed == format.DecodedOf(Chunks(log))
    }

    constructor (waitForDrain: bool, format: Format<T>, consumers: seq<Consumer>, ghost holdings: seq<Holding>)
      requires Sound(format, consumers) && Holds(consumers, holdings) && DistinctIds(holdings)
      ensures Valid() && this.waitForDrain == waitForDrain && this.format == format
      ensures this.consumers == consumers && this.holdings == holdings && log == [] && processed == []
    {
      this.waitForDrain, this.format, this.consumers := waitForDrain, format, consumers;
      this.holdings, log, processed := holdings, [], [];
    }

    /** One consumer's batch, read from its ring. */
    method DrainConsumer(i: nat)
      requires Valid() && i < |consumers|
      modifies this`log, this`processed, this`holdings, consumers[i].queue
      ensures Valid()
      ensures var h := old(holdings)[i]; var n := BatchOf(format, h);
        && holdings == Batched(old(holdings), i, n)
        && log == old(log) + Tagged(h.id, h.unread[..n])
        && processed == old(processed) + format.DecodedOf(h.unread[..n])
    {
      ghost var h := holdings[i];
      var records := DrainOne(format, consumers, holdings, i);
      ghost var n := BatchOf(format, h);
      ProcessedStep(format, log, h.id, h.unread[..n]);
      Record(records, log + Tagged(h.id, h.unread[..n]), Batched(holdings, i, n));
    }

    method Record(records: seq<T>, ghost log': seq<(nat, Chunk)>, ghost hs: seq<Holding>)
      requires Sound(format, consumers) && Holds(consumers, hs) && DistinctIds(hs)
      requires processed + records == format.DecodedOf(Chunks(log'))
      modifies this`log, this`processed, this`holdings
      ensures Valid() && processed == old(processed) + records && log == log' && holdings == hs
    {
      processed, log, holdings := processed + records, log', hs;
    }

    /** Round-robin over all consumers: each gives up its batch, in order. So a pass
        that finds anything takes something. */
    method DrainAll()
      requires Valid()
      modifies this`log, this`processed, this`holdings, QueuesOf(consumers)
      ensures Valid() && SameLedger(old(log), old(holdings), log, holdings)
      ensures Turns(format, old(log), old(holdings), log, holdings, |holdings|)
      ensures old(Total(holdings)) > 0 ==> Total(holdings) < old(Total(holdings))
      ensures Total(holdings) <= old(Total(holdings))
    {
      var i := 0;
      while i < |consumers|
        invariant 0 <= i <= |consumers| && Valid()
        invariant Round(old(log), old(holdings), log, holdings, i)
        invariant Turns(format, old(log), old(holdings), log, holdings, i)
      {
        RoundStep(old(log), old(holdings), log, holdings, i, BatchOf(format, holdings[i]));
        TurnsStep(format, old(log), old(holdings), log, holdings, i);
        DrainConsumer(i);
        i := i + 1;
      }
      TotalPositive(old(holdings));
    }

    /** Removes consumers whose thread is gone and whose queue is empty. */
    method RetireDeadConsumers()
      requires Valid()
      modifies this`consumers, this`holdings, QueuesOf(consumers)
      ensures Valid() && QueuesOf(consumers) <= old(QueuesOf(consumers))
      ensures Pruned(log, old(holdings), holdings)
    {
      RetainedKeeps(log, holdings);
      var kept := Retain(format, consumers, holdings);
      SetConsumers(kept, Retained(holdings));
    }

    method SetConsumers(kept: seq<Consumer>, ghost hs: seq<Holding>)
      requires Sound(format, kept) && Holds(kept, hs) && DistinctIds(hs) && Accounted()
      modifies this`consumers, this`holdings
      ensures Valid() && consumers == kept && holdings == hs
    {
      consumers, holdings := kept, hs;
    }

    method AnyQueuesPending() returns (pending: bool)
      requires Valid()
      modifies QueuesOf(consumers)
      ensures Valid()
      ensures pending <==> exists i :: 0 <= i < |holdings| && holdings[i].unread != []
    {
      var i := 0;
      while i < |consumers|
        invariant 0 <= i <= |consumers| && Valid()
        invariant forall j :: 0 <= j < i ==> holdings[j].unread == []
      {
        pending := AskOne(format, consumers, holdings, i);
        if pending {
          return;
        }
        i := i + 1;
      }
      return false;
    }

    /** The loop of `run` once the flag is set. It terminates, whatever fails to
        decode; with draining on, every queue has then yielded all it held, in
        order, and only live consumers are left; with draining off, nothing moves. */
    method Run()
      requires Valid()
      modifies this`consumers, this`log, this`processed, this`holdings, QueuesOf(consumers)
      ensures Valid() && processed == format.DecodedOf(Chunks(log))
      ensures !waitForDrain ==>
        consumers == old(consumers) && holdings == old(holdings) && log == old(log) && processed == old(processed)
      ensures waitForDrain ==>
        && (forall i :: 0 <= i < |consumers| ==> consumers[i].queue.Unread() == [] && consumers[i].alive)
        && (forall id {:trigger T.Project(log, id)} :: T.Project(log, id) == old(Ledger(log, holdings, id)))
    {
      if !waitForDrain {
        return;
      }
      var pending := true;
      while pending
        invariant Valid() && QueuesOf(consumers) <= old(QueuesOf(consumers))
        invariant SameLedger(old(log), old(holdings), log, holdings)
        invariant !pending ==> forall i :: 0 <= i < |holdings| ==> holdings[i].unread == [] && holdings[i].alive
        decreases pending, Total(holdings)
      {
        Pass();
        TotalPositive(holdings);
        pending := AnyQueuesPending();
      }
      forall id ensures T.Project(log, id) == old(Ledger(log, holdings, id)) {
        TotalZero(holdings, id);
        assert Ledger(log, holdings, id) == T.Project(log, id);
      }
    }

    /** One round and one retirement. */
    method Pass()
      requires Valid()
      modifies this`consumers, this`log, this`processed, this`holdings, QueuesOf(consumers)
      ensures Valid() && QueuesOf(consumers) <= old(QueuesOf(consumers))
      ensures SameLedger(old(log), old(holdings), log, holdings)
      ensures forall i :: 0 <= i < |holdings| ==> holdings[i].alive || holdings[i].unread != []
      ensures Total(holdings) <= old(Total(holdings))
      ensures old(Total(holdings)) > 0 ==> Total(holdings) < old(Total(holdings))
    {
      DrainAll();
      ghost var hs, l := holdings, log;
      RetireDeadConsumers();
      forall id ensures Ledger(log, holdings, id) == old(Ledger(log, holdings, id)) {
        assert Ledger(l, hs, id) == old(Ledger(log, holdings, id));
      }
    }
  }
}
