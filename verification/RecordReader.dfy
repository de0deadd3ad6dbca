/** The backend's reader over one ring: `try_read_one` and the bounded batch of
    `drain_consumer`, against the queue object. */
module RecordReader {
  import opened Wrappers
  import opened Fifo
  import SpscQueue

  /** A record format: a header of fixed size that announces the length of the
      whole record, and a decoder for whole records. */
  datatype Format<!T> = Format(header: nat, frame: Chunk -> nat, decode: Chunk -> Option<T>)
  {
    ghost predicate Framed(c: Chunk) {
      |c| >= header >= 1 && frame(c[..header]) == |c|
    }

    ghost predicate AllFramed(cs: seq<Chunk>) {
      forall i :: 0 <= i < |cs| ==> Framed(cs[i])
    }

    /** How many of the unread records one batch takes: at most `cap`, and none
        after the first that does not decode. */
    function BatchSize(unread: seq<Chunk>, cap: nat): (n: nat)
      ensures n <= cap && n <= |unread|
      ensures cap > 0 && unread != [] ==> n > 0
      ensures forall i :: 0 <= i < n - 1 ==> decode(unread[i]).Some?
      ensures n < cap && n < |unread| ==> n > 0 && decode(unread[n - 1]).None?
      decreases cap
    {
      if cap == 0 || unread == [] then 0
      else if decode(unread[0]).None? then 1
      else 1 + BatchSize(unread[1..], cap - 1)
    }

    /** The records that decode, in order. */
    function DecodedOf(cs: seq<Chunk>): seq<T>
      decreases |cs|
    {
      if cs == [] then []
      else DecodedOf(cs[..|cs| - 1]) + match decode(cs[|cs| - 1]) case Some(r) => [r] case None => []
    }

    lemma DecodedOfNext(cs: seq<Chunk>, k: nat)
      requires k < |cs|
      ensures DecodedOf(cs[..k + 1]) == DecodedOf(cs[..k]) + match decode(cs[k]) case Some(r) => [r] case None => []
    {
      assert cs[..k + 1][..k] == cs[..k];
    }

    lemma {:induction false} DecodedOfAppend(cs: seq<Chunk>, ds: seq<Chunk>)
      ensures DecodedOf(cs + ds) == DecodedOf(cs) + DecodedOf(ds)
      decreases |ds|
    {
      if ds == [] {
        assert cs + ds == cs;
      } else {
        var init := ds[..|ds| - 1];
        assert (cs + ds)[..|cs + ds| - 1] == cs + init;
        DecodedOfAppend(cs, init);
      }
    }

    /** After `k` decoded records the rest of the batch is the batch of the rest. */
    lemma {:induction false} BatchSizeAfter(unread: seq<Chunk>, cap: nat, k: nat)
      requires k <= cap && k <= |unread|
      requires forall i :: 0 <= i < k ==> decode(unread[i]).Some?
      ensures BatchSize(unread, cap) == k + BatchSize(unread[k..], cap - k)
      decreases k
    {
      if k > 0 {
        BatchSizeAfter(unread[1..], cap - 1, k - 1);
        assert unread[1..][k - 1..] == unread[k..];
      } else {
        assert unread[0..] == unread;
      }
    }

    /** `k` records into a batch, all decoded. */
    ghost predicate BatchSoFar(unread: seq<Chunk>, k: nat, records: seq<T>) {
      && k <= |unread|
      && (forall i :: 0 <= i < k ==> decode(unread[i]).Some?)
      && records == DecodedOf(unread[..k])
    }

    /** A batch that left `rest` unread and handed on `records`. */
    ghost predicate BatchDone(unread: seq<Chunk>, rest: seq<Chunk>, records: seq<T>) {
      var n := BatchSize(unread, MAX_BATCH_PER_CONSUMER);
      rest == unread[n..] && records == DecodedOf(unread[..n])
    }

    /** What one `try_read_one` does to a queue's unread records. */
    ghost predicate ReadsOne(unread: seq<Chunk>, rest: seq<Chunk>, r: Option<T>) {
      if unread == [] then r.None? && rest == [] else rest == unread[1..] && r == decode(unread[0])
    }

    lemma BatchStep(unread: seq<Chunk>, k: nat, records: seq<T>, rest: seq<Chunk>, r: Option<T>)
      requires k < MAX_BATCH_PER_CONSUMER && BatchSoFar(unread, k, records) && ReadsOne(unread[k..], rest, r)
      ensures r.None? ==> BatchDone(unread, rest, records)
      ensures r.Some? ==> BatchSoFar(unread, k + 1, records + [r.value]) && rest == unread[k + 1..]
    {
      BatchSizeAfter(unread, MAX_BATCH_PER_CONSUMER, k);
      if k < |unread| {
        DecodedOfNext(unread, k);
      }
    }

    lemma BatchFull(unread: seq<Chunk>, records: seq<T>)
      requires BatchSoFar(unread, MAX_BATCH_PER_CONSUMER, records)
      ensures BatchDone(unread, unread[MAX_BATCH_PER_CONSUMER..], records)
    {
      BatchSizeAfter(unread, MAX_BATCH_PER_CONSUMER, MAX_BATCH_PER_CONSUMER);
    }

    /** Reads one record; the record is consumed even if it does not decode. */
    method TryReadOne(q: SpscQueue.Queue) returns (r: Option<T>)
      requires q.Valid() && AllFramed(q.Unread()) && header >= 1
      modifies q
      ensures q.Valid() && AllFramed(q.Unread())
      ensures ReadsOne(old(q.Unread()), q.Unread(), r)
    {
      ghost var unread := q.Unread();
      q.Facts();
      var avail := q.Available();
      if avail < header {
        NothingToRead(q);
        return None;
      }
      NextIsWhole(q);
      var bytes := q.Peek(header);
      var totalLen := frame(bytes);
      assert totalLen == |unread[0]|;
      if avail < totalLen {
        return None;
      }
      bytes := q.Read(totalLen);
      return decode(bytes);
    }

    /** Less than a header readable means nothing is unread: records are whole. */
    lemma NothingToRead(q: SpscQueue.Queue)
      requires q.Valid() && AllFramed(q.Unread())
      requires Pos(q.chunks, q.seenWrite) - Pos(q.chunks, q.consumed) < header
      requires Pos(q.chunks, q.seenWrite) == Pos(q.chunks, q.consumed) ==> Pos(q.chunks, |q.chunks|) == Pos(q.chunks, q.consumed)
      ensures q.Unread() == []
    {
      if q.consumed < |q.chunks| {
        assert Framed(q.Unread()[0]);
        q.NextChunkSeen();
      }
    }

    lemma NextIsWhole(q: SpscQueue.Queue)
      requires q.Valid() && AllFramed(q.Unread())
      requires Pos(q.chunks, q.seenWrite) > Pos(q.chunks, q.consumed)
      ensures q.Unread() != [] && Framed(q.Unread()[0])
      ensures |q.Unread()[0]| <= Pos(q.chunks, q.seenWrite) - Pos(q.chunks, q.consumed)
    {
      assert q.consumed < |q.chunks|;
      assert q.Unread()[0] == q.chunks[q.consumed];
      q.NextChunkSeen();
    }

    /** `available() > 0`, as retirement and the pending check ask it. */
    method HoldsRecords(q: SpscQueue.Queue) returns (any: bool)
      requires q.Valid() && AllFramed(q.Unread()) && header >= 1
      modifies q
      ensures q.Valid() && q.Unread() == old(q.Unread())
      ensures any <==> q.Unread() != []
    {
      var n := q.Available();
      any := n > 0;
      if any {
        NextIsWhole(q);
      } else {
        NothingToRead(q);
      }
    }

    /** Drains one batch: takes exactly `BatchSize` records and hands on, in order,
        those that decode. */
    method DrainConsumer(q: SpscQueue.Queue) returns (records: seq<T>, didWork: bool)
      requires q.Valid() && AllFramed(q.Unread()) && header >= 1
      modifies q
      ensures q.Valid() && AllFramed(q.Unread())
      ensures BatchDone(old(q.Unread()), q.Unread(), records)
      ensures didWork <==> records != []
    {
      ghost var unread := q.Unread();
      records, didWork := [], false;
      var k := 0;
      assert unread[0..] == unread && unread[..0] == [];
      while k < MAX_BATCH_PER_CONSUMER
        invariant 0 <= k <= MAX_BATCH_PER_CONSUMER && BatchSoFar(unread, k, records)
        invariant q.Valid() && AllFramed(q.Unread()) && q.Unread() == unread[k..]
        invariant didWork <==> records != []
      {
        var raw := TryReadOne(q);
        BatchStep(unread, k, records, q.Unread(), raw);
        if raw.None? {
          return;
        }
        records := records + [raw.value];
        didWork := true;
        k := k + 1;
      }
      BatchFull(unread, records);
    }
  }
}
