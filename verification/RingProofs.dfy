/** Safety of the byte ring in every interleaving, and its refinement to the
    abstract queue of chunks. */
module RingProofs {
  import opened Words
  import opened Fifo
  import opened RingMachine

  // ---- Word arithmetic -----------------------------------------------------

  lemma CapFacts(cfg: Config)
    requires cfg.Valid()
    ensures 1 <= cfg.Cap() && 2 * cfg.Cap() <= cfg.Modulus()
    ensures cfg.Modulus() == cfg.Cap() * Pow2(cfg.wordBits - cfg.capBits)
  {
    Pow2Add(cfg.capBits, cfg.wordBits - cfg.capBits);
    Pow2Grows(cfg.capBits, cfg.wordBits);
  }

  /** Masking a wrapped position gives the unbounded position modulo the capacity. */
  lemma OffsetOfWrapped(cfg: Config, p: nat)
    requires cfg.Valid()
    ensures Offset(cfg, p % cfg.Modulus()) == p % cfg.Cap()
  {
    CapFacts(cfg);
    MaskIsMod(p % cfg.Modulus(), cfg.capBits);
    ModOfMod(p, cfg.Cap(), Pow2(cfg.wordBits - cfg.capBits));
  }

  /** The four positions in unbounded form: cached_read <= read <= cached_write
      <= write <= cached_read + capacity. */
  lemma Ordered(cfg: Config, s: Ring)
    requires cfg.Valid() && Positions(cfg, s)
    ensures At(s, s.seenRead) <= At(s, |s.delivered|) <= At(s, s.seenWrite) <= At(s, |s.chunks|)
    ensures At(s, |s.chunks|) <= At(s, s.seenRead) + cfg.Cap()
  {
    PosMono(s.chunks, s.seenRead, |s.delivered|);
    PosMono(s.chunks, |s.delivered|, s.seenWrite);
    PosMono(s.chunks, s.seenWrite, |s.chunks|);
  }

  /** `capacity - wrapping_sub` is the true free space under the cached read
      position, and so never underflows. */
  lemma FreeExact(cfg: Config, s: Ring)
    requires cfg.Valid() && WordsOk(cfg, s) && Positions(cfg, s)
    ensures Free(cfg, s) == cfg.Cap() - (At(s, |s.chunks|) - At(s, s.seenRead))
    ensures Free(cfg, s) >= 0
  {
    CapFacts(cfg);
    Ordered(cfg, s);
    WrapSubExact(At(s, |s.chunks|), At(s, s.seenRead), cfg.Modulus());
  }

  /** `available()` counts the bytes between the read and the cached write
      position, across the wrap; its plain comparison of wrapped words is only
      ever true when there is something to read. */
  lemma AvailExact(cfg: Config, s: Ring)
    requires cfg.Valid() && WordsOk(cfg, s) && Positions(cfg, s)
    ensures Avail(cfg, s) == At(s, s.seenWrite) - At(s, |s.delivered|)
    ensures s.cachedWrite > s.read ==> At(s, s.seenWrite) > At(s, |s.delivered|)
  {
    CapFacts(cfg);
    Ordered(cfg, s);
    WrapSubExact(At(s, s.seenWrite), At(s, |s.delivered|), cfg.Modulus());
  }

  // ---- Physical layout -----------------------------------------------------

  /** Two chunks inside one window of `cap` logical bytes occupy disjoint
      physical bytes, although the overflow half is not mirrored. */
  lemma PhysicallyDisjoint(cap: nat, p: nat, n: nat, q: nat, m: nat)
    requires 0 < cap && p + n <= q && q + m <= p + cap && 0 < m
    ensures p % cap + n <= q % cap || q % cap + m <= p % cap
    ensures p % cap + n <= 2 * cap && q % cap + m <= 2 * cap
  {
    ModStep(p, q - p, cap);
  }

  lemma Window(cfg: Config, s: Ring, i: nat)
    requires cfg.Valid() && Positions(cfg, s) && |s.delivered| <= i < |s.chunks|
    ensures At(s, s.seenRead) <= At(s, i)
    ensures At(s, i) + |s.chunks[i]| <= At(s, |s.chunks|)
  {
    PosMono(s.chunks, s.seenRead, i);
    PosMono(s.chunks, i, |s.chunks|);
  }

  ghost predicate Apart(o: nat, n: nat, p: nat, m: nat) {
    o + n <= p || p + m <= o
  }

  /** The bytes being filled are inside the buffer and share none with any unread chunk. */
  lemma FillDisjoint(cfg: Config, s: Ring, i: nat)
    requires cfg.Valid() && Inv(cfg, s) && s.producer.PFilling?
    requires |s.delivered| <= i < |s.chunks|
    ensures Apart(Phys(cfg, s, |s.chunks|), |s.producer.data|, Phys(cfg, s, i), |s.chunks[i]|)
  {
    Window(cfg, s, i);
    PhysicallyDisjoint(cfg.Cap(), At(s, i), |s.chunks[i]|, At(s, |s.chunks|), |s.producer.data|);
  }

  // ---- Preservation, action by action ---------------------------------------

  lemma InitInv(cfg: Config)
    requires cfg.Valid()
    ensures Inv(cfg, Init(cfg))
    ensures Abs(Init(cfg)) == EMPTY
  {
    CapFacts(cfg);
    var s := Init(cfg);
    ModUnique(0, 0, 0, cfg.Modulus());
    assert At(s, 0) == 0 && WordsOk(cfg, s);
    assert Positions(cfg, s) && Logs(cfg, s);
    assert Contents(cfg, s);
  }

  /** Everything but the two program counters carries over when only they change. */
  lemma Frame(cfg: Config, s: Ring, t: Ring)
    requires Inv(cfg, s)
    requires t == s.(producer := t.producer, consumer := t.consumer)
    ensures WordsOk(cfg, t) && Positions(cfg, t) && Logs(cfg, t) && Contents(cfg, t)
    ensures t.producer == s.producer ==> ProducerOk(cfg, t)
    ensures t.consumer == s.consumer ==> ConsumerOk(cfg, t)
  {
    forall i | |t.delivered| <= i < |t.chunks| ensures Stored(cfg, t, i) {
      assert Stored(cfg, s, i);
    }
  }

  lemma ReserveFits(cfg: Config, s: Ring, t: Ring)
    requires cfg.Valid() && Inv(cfg, s)
    requires s.producer.PChecking? || s.producer.PWaiting?
    requires Free(cfg, s) >= |s.producer.data|
    requires t == s.(producer := PFilling(s.producer.data, 0))
    ensures Inv(cfg, t)
  {
    FreeExact(cfg, s);
    Frame(cfg, s, t);
    CapFacts(cfg);
    assert At(t, |t.chunks|) % cfg.Cap() < cfg.Cap();
    Ordered(cfg, s);
  }

  lemma CheckInv(cfg: Config, s: Ring)
    requires cfg.Valid() && Inv(cfg, s) && Enabled(cfg, s, PCheck)
    ensures Inv(cfg, Apply(cfg, s, PCheck))
  {
    var t := Apply(cfg, s, PCheck);
    if t.producer.PFilling? {
      ReserveFits(cfg, s, t);
    } else {
      Frame(cfg, s, t);
    }
  }

  /** Storing a newer published read position keeps the invariant. */
  lemma CacheReadInv(cfg: Config, s: Ring, k: nat)
    requires cfg.Valid() && Inv(cfg, s) && s.producer.PWaiting? && s.seenRead <= k < |s.readLog|
    ensures Inv(cfg, s.(cachedRead := s.readLog[k], seenRead := k))
  {
    var t := s.(cachedRead := s.readLog[k], seenRead := k);
    PosMono(s.chunks, s.seenRead, k);
    assert Contents(cfg, t) by {
      forall i | |t.delivered| <= i < |t.chunks| ensures Stored(cfg, t, i) {
        assert Stored(cfg, s, i);
      }
    }
  }

  lemma LoadReadInv(cfg: Config, s: Ring, k: nat)
    requires cfg.Valid() && Inv(cfg, s) && Enabled(cfg, s, PLoad(k))
    ensures Inv(cfg, Apply(cfg, s, PLoad(k)))
  {
    var s1 := s.(cachedRead := s.readLog[k], seenRead := k);
    CacheReadInv(cfg, s, k);
    var t := Apply(cfg, s, PLoad(k));
    if t.producer.PFilling? {
      ReserveFits(cfg, s1, t);
    } else {
      Frame(cfg, s1, t);
    }
  }

  /** Writing one byte outside a region leaves the region's contents alone. */
  lemma UpdateOutside(buf: seq<byte>, at: nat, b: byte, o: nat, n: nat)
    requires at < |buf| && o + n <= |buf| && (at < o || o + n <= at)
    ensures buf[at := b][o..o + n] == buf[o..o + n]
  {
  }

  lemma FillKeepsStored(cfg: Config, s: Ring, i: nat)
    requires cfg.Valid() && Inv(cfg, s) && Enabled(cfg, s, PFill)
    requires |s.delivered| <= i < |s.chunks|
    ensures Offset(cfg, s.write) == Phys(cfg, s, |s.chunks|)
    ensures !Apply(cfg, s, PFill).producer.PWild?
    ensures Stored(cfg, Apply(cfg, s, PFill), i)
  {
    OffsetOfWrapped(cfg, At(s, |s.chunks|));
    FillDisjoint(cfg, s, i);
    assert Stored(cfg, s, i);
    var at := Phys(cfg, s, |s.chunks|) + s.producer.done;
    UpdateOutside(s.buf, at, s.producer.data[s.producer.done], Phys(cfg, s, i), |s.chunks[i]|);
  }

  lemma FillExtends(buf: seq<byte>, o: nat, data: Chunk, done: nat)
    requires done < |data| && o + |data| <= |buf| && buf[o..o + done] == data[..done]
    ensures buf[o + done := data[done]][o..o + done + 1] == data[..done + 1]
  {
    var b := buf[o + done := data[done]];
    assert b[o..o + done + 1] == b[o..o + done] + [data[done]];
    assert b[o..o + done] == buf[o..o + done];
    assert data[..done + 1] == data[..done] + [data[done]];
  }

  lemma FillInv(cfg: Config, s: Ring)
    requires cfg.Valid() && Inv(cfg, s) && Enabled(cfg, s, PFill)
    ensures Inv(cfg, Apply(cfg, s, PFill))
  {
    OffsetOfWrapped(cfg, At(s, |s.chunks|));
    var t := Apply(cfg, s, PFill);
    FillExtends(s.buf, Phys(cfg, s, |s.chunks|), s.producer.data, s.producer.done);
    assert Contents(cfg, t) by {
      forall i | |t.delivered| <= i < |t.chunks| ensures Stored(cfg, t, i) {
        FillKeepsStored(cfg, s, i);
      }
    }
  }

  lemma CommitPositions(cfg: Config, s: Ring)
    requires cfg.Valid() && Inv(cfg, s) && Enabled(cfg, s, PCommit)
    ensures WordsOk(cfg, Apply(cfg, s, PCommit))
    ensures Positions(cfg, Apply(cfg, s, PCommit))
    ensures Logs(cfg, Apply(cfg, s, PCommit))
  {
    var t := Apply(cfg, s, PCommit);
    var data := s.producer.data;
    CapFacts(cfg);
    forall i: nat | i <= |s.chunks| ensures At(t, i) == At(s, i) {
      PosAppend(s.chunks, data, i);
    }
    WrapAddExact(At(s, |s.chunks|), |data|, cfg.Modulus());
  }

  /** A chunk that was in place still is, and so is the one just filled. */
  lemma CommitStored(cfg: Config, s: Ring, i: nat)
    requires cfg.Valid() && Inv(cfg, s) && Enabled(cfg, s, PCommit) && |s.delivered| <= i <= |s.chunks|
    ensures Stored(cfg, s.(chunks := s.chunks + [s.producer.data]), i)
  {
    PosAppend(s.chunks, s.producer.data, i);
    if i < |s.chunks| {
      assert Stored(cfg, s, i);
    }
  }

  lemma CommitContents(cfg: Config, s: Ring)
    requires cfg.Valid() && Inv(cfg, s) && Enabled(cfg, s, PCommit)
    ensures Contents(cfg, Apply(cfg, s, PCommit))
  {
    var t, r := Apply(cfg, s, PCommit), s.(chunks := s.chunks + [s.producer.data]);
    assert t.chunks == r.chunks && t.delivered == r.delivered && t.buf == r.buf;
    forall i | |t.delivered| <= i < |t.chunks| ensures Stored(cfg, t, i) {
      CommitStored(cfg, s, i);
      assert Stored(cfg, r, i);
    }
    assert t.delivered == t.chunks[..|t.delivered|];
  }

  lemma CommitInv(cfg: Config, s: Ring)
    requires cfg.Valid() && Inv(cfg, s) && Enabled(cfg, s, PCommit)
    ensures Inv(cfg, Apply(cfg, s, PCommit))
  {
    CommitPositions(cfg, s);
    CommitContents(cfg, s);
  }

  /** `available()` keeps the invariant. */
  lemma RefreshInv(cfg: Config, s: Ring, k: nat)
    requires cfg.Valid() && Inv(cfg, s) && CanLoad(s, k)
    ensures Inv(cfg, Refreshed(s, k))
  {
    var t := Refreshed(s, k);
    forall i | |t.delivered| <= i < |t.chunks| ensures Stored(cfg, t, i) {
      assert Stored(cfg, s, i);
    }
  }

  /** A non-zero count covers the whole of the next chunk: published write
      positions are chunk boundaries. */
  lemma AvailCoversChunk(cfg: Config, s: Ring)
    requires cfg.Valid() && Inv(cfg, s)
    ensures Avail(cfg, s) > 0 <==> Working(s)
    ensures Working(s) ==> cfg.header <= |Current(s)| <= Avail(cfg, s)
  {
    AvailExact(cfg, s);
    if Working(s) {
      assert Current(s) in s.chunks;
      PosMono(s.chunks, |s.delivered|, s.seenWrite);
    }
  }

  lemma BeginInv(cfg: Config, s: Ring, k: nat)
    requires cfg.Valid() && Inv(cfg, s) && Enabled(cfg, s, CBegin(k))
    ensures Inv(cfg, Apply(cfg, s, CBegin(k)))
  {
    var s1 := Refreshed(s, k);
    RefreshInv(cfg, s, k);
    AvailCoversChunk(cfg, s1);
    Frame(cfg, s1, Apply(cfg, s, CBegin(k)));
  }

  lemma PeekAvailInv(cfg: Config, s: Ring, k: nat)
    requires cfg.Valid() && Inv(cfg, s) && Enabled(cfg, s, CPeekAvail(k))
    ensures Inv(cfg, Apply(cfg, s, CPeekAvail(k)))
  {
    var s1 := Refreshed(s, k);
    RefreshInv(cfg, s, k);
    AvailCoversChunk(cfg, s1);
    Frame(cfg, s1, Apply(cfg, s, CPeekAvail(k)));
  }

  lemma ReadAvailInv(cfg: Config, s: Ring, k: nat)
    requires cfg.Valid() && Inv(cfg, s) && Enabled(cfg, s, CReadAvail(k))
    ensures Inv(cfg, Apply(cfg, s, CReadAvail(k)))
  {
    var s1 := Refreshed(s, k);
    RefreshInv(cfg, s, k);
    AvailCoversChunk(cfg, s1);
    Frame(cfg, s1, Apply(cfg, s, CReadAvail(k)));
  }

  /** The byte the consumer copies is the next byte of the chunk it is on. */
  lemma ByteAt(cfg: Config, s: Ring, j: nat)
    requires cfg.Valid() && Inv(cfg, s) && Working(s) && j < |Current(s)|
    ensures Offset(cfg, s.read) + j < |s.buf|
    ensures s.buf[Offset(cfg, s.read) + j] == Current(s)[j]
  {
    OffsetOfWrapped(cfg, At(s, |s.delivered|));
    assert Stored(cfg, s, |s.delivered|);
    var o := Phys(cfg, s, |s.delivered|);
    assert s.buf[o..o + |Current(s)|][j] == s.buf[o + j];
  }

  lemma CopyByteInv(cfg: Config, s: Ring, a: Action)
    requires cfg.Valid() && Inv(cfg, s) && (a.CPeekByte? || a.CReadByte?) && Enabled(cfg, s, a)
    ensures Inv(cfg, Apply(cfg, s, a))
  {
    var t := Apply(cfg, s, a);
    var got := s.consumer.got;
    ByteAt(cfg, s, |got|);
    Frame(cfg, s, t);
    assert Current(s)[..|got| + 1] == Current(s)[..|got|] + [Current(s)[|got|]];
  }

  /** Framing: the length the reader computes from the ring's bytes is the
      length of the chunk the producer wrote there. */
  lemma SizeIsChunkLength(cfg: Config, s: Ring)
    requires cfg.Valid() && Inv(cfg, s) && Enabled(cfg, s, CSize)
    ensures cfg.frame(s.consumer.got) == |Current(s)| <= s.consumer.avail
  {
    assert Current(s) in s.chunks;
  }

  lemma SizeInv(cfg: Config, s: Ring)
    requires cfg.Valid() && Inv(cfg, s) && Enabled(cfg, s, CSize)
    ensures Inv(cfg, Apply(cfg, s, CSize))
  {
    SizeIsChunkLength(cfg, s);
    Frame(cfg, s, Apply(cfg, s, CSize));
  }

  lemma AdvancePositions(cfg: Config, s: Ring)
    requires cfg.Valid() && Inv(cfg, s) && Enabled(cfg, s, CAdvance)
    ensures WordsOk(cfg, Apply(cfg, s, CAdvance))
    ensures Positions(cfg, Apply(cfg, s, CAdvance))
    ensures Logs(cfg, Apply(cfg, s, CAdvance))
  {
    CapFacts(cfg);
    WrapAddExact(At(s, |s.delivered|), s.consumer.len, cfg.Modulus());
  }

  lemma AdvanceContents(cfg: Config, s: Ring)
    requires cfg.Valid() && Inv(cfg, s) && Enabled(cfg, s, CAdvance)
    ensures s.consumer.got == Current(s)
    ensures Contents(cfg, Apply(cfg, s, CAdvance))
  {
    var t := Apply(cfg, s, CAdvance);
    forall i | |t.delivered| <= i < |t.chunks| ensures Stored(cfg, t, i) {
      assert Stored(cfg, s, i);
    }
    assert s.chunks[..|t.delivered|] == s.chunks[..|s.delivered|] + [Current(s)];
  }

  lemma AdvanceInv(cfg: Config, s: Ring)
    requires cfg.Valid() && Inv(cfg, s) && Enabled(cfg, s, CAdvance)
    ensures Inv(cfg, Apply(cfg, s, CAdvance))
  {
    AdvancePositions(cfg, s);
    AdvanceContents(cfg, s);
  }

  // ---- Main results --------------------------------------------------------

  /** Every enabled action, from either side, keeps the invariant. */
  lemma StepInv(cfg: Config, s: Ring, a: Action)
    requires cfg.Valid() && Inv(cfg, s) && Enabled(cfg, s, a)
    ensures Inv(cfg, Apply(cfg, s, a))
  {
    match a
    case PStart(data) => Frame(cfg, s, Apply(cfg, s, a));
    case PCheck => CheckInv(cfg, s);
    case PLoad(k) => LoadReadInv(cfg, s, k);
    case PFill => FillInv(cfg, s);
    case PCommit => CommitInv(cfg, s);
    case CQuery(k) => RefreshInv(cfg, s, k);
    case CBegin(k) => BeginInv(cfg, s, k);
    case CPeekAvail(k) => PeekAvailInv(cfg, s, k);
    case CPeekByte => CopyByteInv(cfg, s, a);
    case CSize => SizeInv(cfg, s);
    case CReadAvail(k) => ReadAvailInv(cfg, s, k);
    case CReadByte => CopyByteInv(cfg, s, a);
    case CAdvance => AdvanceInv(cfg, s);
  }

  lemma ProducerRefines(cfg: Config, s: Ring, a: Action)
    requires cfg.Valid() && Inv(cfg, s) && IsProducerAction(a) && Enabled(cfg, s, a)
    ensures Abs(s).Valid()
    ensures Step(Abs(s), EventOf(cfg, s, a), Abs(Apply(cfg, s, a)), true)
  {
  }

  lemma AvailableRefines(cfg: Config, s: Ring, k: nat)
    requires cfg.Valid() && Inv(cfg, s) && CanLoad(s, k)
    ensures Abs(s).Valid()
    ensures var n := Avail(cfg, Refreshed(s, k));
      && Observes(Abs(s), n, Abs(Refreshed(s, k)), false)
      && (k + 1 == |s.writeLog| ==> Observes(Abs(s), n, Abs(Refreshed(s, k)), true))
  {
    RefreshInv(cfg, s, k);
    AvailExact(cfg, s);
    AvailExact(cfg, Refreshed(s, k));
  }

  /** Each action is one step of the abstract queue with the same visible event. */
  ghost predicate Refines(cfg: Config, s: Ring, a: Action)
    requires WordsOk(cfg, s) && Enabled(cfg, s, a) && Abs(s).Valid()
  {
    && Step(Abs(s), EventOf(cfg, s, a), Abs(Apply(cfg, s, a)), false)
    && (LoadsLatest(s, a) ==> Step(Abs(s), EventOf(cfg, s, a), Abs(Apply(cfg, s, a)), true))
  }

  lemma QueryRefines(cfg: Config, s: Ring, a: Action)
    requires cfg.Valid() && Inv(cfg, s) && Enabled(cfg, s, a) && (a.CQuery? || a.CBegin?)
    ensures Abs(s).Valid() && Refines(cfg, s, a)
  {
    AvailableRefines(cfg, s, a.k);
  }

  lemma ReloadRefines(cfg: Config, s: Ring, a: Action)
    requires cfg.Valid() && Inv(cfg, s) && Enabled(cfg, s, a) && (a.CPeekAvail? || a.CReadAvail?)
    ensures Abs(s).Valid() && Refines(cfg, s, a)
  {
    RefreshInv(cfg, s, a.k);
  }

  lemma ReadRefines(cfg: Config, s: Ring, a: Action)
    requires cfg.Valid() && Inv(cfg, s) && Enabled(cfg, s, a) && (a.CPeekByte? || a.CReadByte? || a.CSize? || a.CAdvance?)
    ensures Abs(s).Valid() && Refines(cfg, s, a)
  {
    if a.CSize? {
      SizeIsChunkLength(cfg, s);
    } else if a.CAdvance? {
      AdvanceContents(cfg, s);
    }
  }

  lemma StepRefines(cfg: Config, s: Ring, a: Action)
    requires cfg.Valid() && Inv(cfg, s) && Enabled(cfg, s, a)
    ensures Abs(s).Valid()
    ensures Step(Abs(s), EventOf(cfg, s, a), Abs(Apply(cfg, s, a)), false)
    ensures LoadsLatest(s, a) ==> Step(Abs(s), EventOf(cfg, s, a), Abs(Apply(cfg, s, a)), true)
  {
    if IsProducerAction(a) {
      ProducerRefines(cfg, s, a);
    } else if a.CQuery? || a.CBegin? {
      QueryRefines(cfg, s, a);
    } else if a.CPeekAvail? || a.CReadAvail? {
      ReloadRefines(cfg, s, a);
    } else {
      ReadRefines(cfg, s, a);
    }
  }

  /** A run: a state reached from the empty ring by some sequence of actions. */
  ghost predicate Run(cfg: Config, states: seq<Ring>, actions: seq<Action>) {
    && |states| == |actions| + 1
    && states[0] == Init(cfg)
    && (forall i :: 0 <= i < |actions| ==>
          && WordsOk(cfg, states[i]) && Enabled(cfg, states[i], actions[i])
          && states[i + 1] == Apply(cfg, states[i], actions[i]))
  }

  lemma {:induction false} RunInv(cfg: Config, states: seq<Ring>, actions: seq<Action>, i: nat)
    requires cfg.Valid() && Run(cfg, states, actions) && i < |states|
    ensures Inv(cfg, states[i])
  {
    if i == 0 {
      InitInv(cfg);
    } else {
      RunInv(cfg, states, actions, i - 1);
      StepInv(cfg, states[i - 1], actions[i - 1]);
    }
  }

  /** No data race and no corruption, in every state of every interleaving: both
      sides stay inside the buffer, the bytes being filled are disjoint from
      every unread chunk, every unread chunk is intact, and what has been read
      is exactly what was written, in order. */
  lemma RingSafe(cfg: Config, states: seq<Ring>, actions: seq<Action>, n: nat)
    requires cfg.Valid() && Run(cfg, states, actions) && n < |states|
    ensures var s := states[n];
      && !s.producer.PWild? && !s.consumer.CPanicked?
      && s.delivered <= s.chunks
      && (forall i {:trigger Phys(cfg, s, i)} :: |s.delivered| <= i < |s.chunks| ==> Stored(cfg, s, i))
      && (s.producer.PFilling? ==>
            && Phys(cfg, s, |s.chunks|) + |s.producer.data| <= |s.buf|
            && forall i {:trigger Phys(cfg, s, i)} :: |s.delivered| <= i < |s.chunks| ==>
                 Apart(Phys(cfg, s, |s.chunks|), |s.producer.data|, Phys(cfg, s, i), |s.chunks[i]|))
  {
    RunInv(cfg, states, actions, n);
    var s := states[n];
    if s.producer.PFilling? {
      forall i | |s.delivered| <= i < |s.chunks|
        ensures Apart(Phys(cfg, s, |s.chunks|), |s.producer.data|, Phys(cfg, s, i), |s.chunks[i]|)
      {
        FillDisjoint(cfg, s, i);
      }
    }
  }

  /** The wrapping machine against unbounded positions, in every state of every
      run: the four positions are chunk boundaries modulo the word size, in the right order, the free
      space never underflows, and `available()` is zero exactly when nothing the
      consumer has seen is unread. */
  lemma WrapRefinesUnbounded(cfg: Config, states: seq<Ring>, actions: seq<Action>, n: nat)
    requires cfg.Valid() && Run(cfg, states, actions) && n < |states|
    ensures var s := states[n];
      && s.seenRead <= |s.delivered| <= s.seenWrite <= |s.chunks|
      && s.write == At(s, |s.chunks|) % cfg.Modulus()
      && s.cachedRead == At(s, s.seenRead) % cfg.Modulus()
      && s.read == At(s, |s.delivered|) % cfg.Modulus()
      && s.cachedWrite == At(s, s.seenWrite) % cfg.Modulus()
      && At(s, s.seenRead) <= At(s, |s.delivered|) <= At(s, s.seenWrite) <= At(s, |s.chunks|)
      && At(s, |s.chunks|) <= At(s, s.seenRead) + cfg.Cap()
      && Offset(cfg, s.write) == At(s, |s.chunks|) % cfg.Cap()
      && Offset(cfg, s.read) == At(s, |s.delivered|) % cfg.Cap()
      && WordsOk(cfg, s)
      && Free(cfg, s) == cfg.Cap() - (At(s, |s.chunks|) - At(s, s.seenRead)) >= 0
      && Avail(cfg, s) == At(s, s.seenWrite) - At(s, |s.delivered|)
      && (Avail(cfg, s) == 0 <==> s.seenWrite == |s.delivered|)
  {
    RunInv(cfg, states, actions, n);
    var s := states[n];
    Ordered(cfg, s);
    FreeExact(cfg, s);
    AvailExact(cfg, s);
    AvailCoversChunk(cfg, s);
    OffsetOfWrapped(cfg, At(s, |s.chunks|));
    OffsetOfWrapped(cfg, At(s, |s.delivered|));
  }

  /** Framing over whole runs: whenever the reader has settled on a length, it is
      the length of the chunk at that position, and the reader never gives up on
      a partial record. */
  lemma FramingHolds(cfg: Config, states: seq<Ring>, actions: seq<Action>, n: nat)
    requires cfg.Valid() && Run(cfg, states, actions) && n < |actions|
    ensures EventOf(cfg, states[n], actions[n]) != Short
    ensures var s := states[n];
      (s.consumer.CSized? || s.consumer.CReading?) ==>
        |s.delivered| < |s.chunks| && s.consumer.len == |s.chunks[|s.delivered|]|
  {
    RunInv(cfg, states, actions, n);
    if actions[n].CSize? {
      SizeIsChunkLength(cfg, states[n]);
    }
  }

  /** Every run of the byte ring is a run of the abstract queue. */
  lemma RunRefines(cfg: Config, states: seq<Ring>, actions: seq<Action>, n: nat)
    requires cfg.Valid() && Run(cfg, states, actions) && n < |actions|
    ensures Abs(states[0]) == EMPTY
    ensures Abs(states[n]).Valid()
    ensures Step(Abs(states[n]), EventOf(cfg, states[n], actions[n]), Abs(states[n + 1]), false)
  {
    RunInv(cfg, states, actions, n);
    InitInv(cfg);
    StepRefines(cfg, states[n], actions[n]);
  }
}
