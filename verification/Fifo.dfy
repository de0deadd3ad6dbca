/** The abstract queue: a log of committed chunks of which a prefix has been
    consumed. Positions in the byte ring are exactly the chunk boundaries of
    this log, so one index describes each of the ring's position fields. */
module Fifo {
  import opened Words

  type Chunk = seq<byte>

  /** How many records the worker takes from one queue before it moves on. */
  const MAX_BATCH_PER_CONSUMER := 32

  /** Unbounded byte position of the start of chunk `i`. */
  function Pos(chunks: seq<Chunk>, i: nat): nat
    requires i <= |chunks|
  {
    if i == 0 then 0 else Pos(chunks, i - 1) + |chunks[i - 1]|
  }

  lemma {:induction false} PosMono(chunks: seq<Chunk>, i: nat, j: nat)
    requires i <= j <= |chunks|
    ensures Pos(chunks, i) <= Pos(chunks, j)
    ensures i < j ==> Pos(chunks, i) + |chunks[i]| <= Pos(chunks, j)
    decreases j - i
  {
    if i < j {
      PosMono(chunks, i + 1, j);
    }
  }

  lemma {:induction false} PosAppend(chunks: seq<Chunk>, c: Chunk, i: nat)
    requires i <= |chunks|
    ensures Pos(chunks + [c], i) == Pos(chunks, i)
  {
    if i > 0 {
      PosAppend(chunks, c, i - 1);
    }
  }

  /** `seen` is the chunk count behind the consumer's cached write position. */
  datatype Queue = Queue(committed: seq<Chunk>, consumed: nat, seen: nat)
  {
    ghost predicate Valid() {
      consumed <= seen <= |committed|
    }

    /** Bytes between the read position and the cached write position. */
    function Available(): nat
      requires consumed <= seen <= |committed|
    {
      PosMono(committed, consumed, seen);
      Pos(committed, seen) - Pos(committed, consumed)
    }
  }

  const EMPTY := Queue([], 0, 0)

  /** What the threads around a queue observe of it. */
  datatype Event =
    | Tau                  // nothing visible outside the queue
    | Start                // a producer enters `write`
    | Commit(chunk: Chunk) // `write` published its bytes
    | Reject               // `write` returned an error
    | Query(bytes: nat)    // `available()` from retirement or the pending check
    | Begin(bytes: nat)    // `available()` at the top of `try_read_one`
    | Read(chunk: Chunk)   // `read` returned its bytes and advanced
    | Short                // `try_read_one` found less than a whole record

  /** A load of the write position returns some published value that is no older
      than the one seen before; with `latest`, the newest one. */
  ghost predicate Loads(q: Queue, q': Queue, latest: bool) {
    && q' == q.(seen := q'.seen)
    && q.seen <= q'.seen <= |q.committed|
    && (latest ==> q'.seen == |q.committed|)
  }

  /** `available()`: a cached non-empty answer needs no load. */
  ghost predicate Observes(q: Queue, n: nat, q': Queue, latest: bool)
    requires q.Valid()
  {
    && ((q' == q && q.consumed < q.seen) || Loads(q, q', latest))
    && q'.Valid()
    && n == q'.Available()
  }

  ghost predicate Step(q: Queue, e: Event, q': Queue, latest: bool)
    requires q.Valid()
  {
    match e
    case Tau => Loads(q, q', false)
    case Start => q' == q
    case Reject => q' == q
    case Commit(c) => q' == q.(committed := q.committed + [c])
    case Query(n) => Observes(q, n, q', latest)
    case Begin(n) => Observes(q, n, q', latest)
    case Read(c) => q.consumed < q.seen && c == q.committed[q.consumed] && q' == q.(consumed := q.consumed + 1)
    case Short => false
  }

  lemma StepValid(q: Queue, e: Event, q': Queue, latest: bool)
    requires q.Valid() && Step(q, e, q', latest)
    ensures q'.Valid()
  {
  }
}
