/** The single-producer single-consumer byte ring as a transition system.

    Every atomic load and store and every byte copied is its own step, the two
    sides interleave freely, positions are machine words that wrap, and a load
    of the other side's position may return any published value that is no
    older than the one seen before. The consumer is the backend's record
    reader: it peeks at a header, works out a record length from the bytes it
    finds there, and reads that many bytes. Nothing in the ring checks that
    length against what was written. */
module RingMachine {
  import opened Words
  import opened Fifo

  /** `header` bytes at the front of a chunk determine its length through `frame`. */
  datatype Config = Config(capBits: nat, wordBits: nat, header: nat, frame: Chunk -> nat)
  {
    ghost predicate Valid() {
      capBits < wordBits && header >= 1
    }

    function Cap(): nat { Pow2(capBits) }

    function Modulus(): nat { Pow2(wordBits) }

    /** A chunk a reader can frame: its own header announces its length. */
    predicate Framed(c: Chunk) {
      |c| >= header && frame(c[..header]) == |c|
    }
  }

  datatype Producer =
    | PIdle
    | PChecking(data: Chunk)
    | PWaiting(data: Chunk)
    | PFilling(data: Chunk, done: nat)
    | PWild // wrote outside the buffer

  datatype Consumer =
    | CIdle
    | CFound(avail: nat)
    | CPeeking(avail: nat, got: Chunk)
    | CSized(len: nat)
    | CReading(len: nat, got: Chunk)
    | CPanicked // a debug assertion failed or a read left the buffer

  /** `writeLog` and `readLog` list every value stored to the two atomics, so
      the current values are their last elements; `chunks` and `delivered` are
      the histories of what was written and of what was read. */
  datatype Ring = Ring(
    buf: seq<byte>,
    write: nat, cachedRead: nat, producer: Producer,
    read: nat, cachedWrite: nat, consumer: Consumer,
    writeLog: seq<nat>, readLog: seq<nat>, seenWrite: nat, seenRead: nat,
    chunks: seq<Chunk>, delivered: seq<Chunk>)

  datatype Action =
    | PStart(data: Chunk) | PCheck | PLoad(k: nat) | PFill | PCommit
    | CQuery(k: nat) | CBegin(k: nat) | CPeekAvail(k: nat) | CPeekByte | CSize
    | CReadAvail(k: nat) | CReadByte | CAdvance

  predicate IsProducerAction(a: Action) {
    a.PStart? || a.PCheck? || a.PLoad? || a.PFill? || a.PCommit?
  }

  function Init(cfg: Config): Ring {
    Ring(seq(2 * cfg.Cap(), _ => 0), 0, 0, PIdle, 0, 0, CIdle, [0], [0], 0, 0, [], [])
  }

  predicate WordsOk(cfg: Config, s: Ring) {
    var m := cfg.Modulus();
    && s.write < m && s.cachedRead < m && s.read < m && s.cachedWrite < m
    && (forall i :: 0 <= i < |s.writeLog| ==> s.writeLog[i] < m)
    && (forall i :: 0 <= i < |s.readLog| ==> s.readLog[i] < m)
  }

  /** `pos & mask`. */
  function Offset(cfg: Config, pos: nat): nat {
    BitAnd(pos, cfg.Cap() - 1)
  }

  /** `capacity - write.wrapping_sub(cached_read)`; a negative value is an underflow. */
  function Free(cfg: Config, s: Ring): int
    requires WordsOk(cfg, s)
  {
    cfg.Cap() - WrapSub(s.write, s.cachedRead, cfg.Modulus())
  }

  /** The state after `available()`, which loads `writeLog[k]` unless the cache answers. */
  function Refreshed(s: Ring, k: nat): Ring
    requires k < |s.writeLog|
  {
    if s.cachedWrite > s.read then s else s.(cachedWrite := s.writeLog[k], seenWrite := k)
  }

  /** The count `available()` returns. */
  function Avail(cfg: Config, s: Ring): nat
    requires WordsOk(cfg, s)
  {
    WrapSub(s.cachedWrite, s.read, cfg.Modulus())
  }

  predicate CanLoad(s: Ring, k: nat) {
    s.seenWrite <= k < |s.writeLog|
  }

  predicate Enabled(cfg: Config, s: Ring, a: Action) {
    match a
    case PStart(data) => s.producer.PIdle? && cfg.Framed(data)
    case PCheck => s.producer.PChecking?
    case PLoad(k) => s.producer.PWaiting? && s.seenRead <= k < |s.readLog|
    case PFill => s.producer.PFilling? && s.producer.done < |s.producer.data|
    case PCommit => s.producer.PFilling? && s.producer.done == |s.producer.data|
    case CQuery(k) => s.consumer.CIdle? && CanLoad(s, k)
    case CBegin(k) => s.consumer.CIdle? && CanLoad(s, k)
    case CPeekAvail(k) => s.consumer.CFound? && CanLoad(s, k)
    case CPeekByte => s.consumer.CPeeking? && |s.consumer.got| < cfg.header
    case CSize => s.consumer.CPeeking? && |s.consumer.got| == cfg.header
    case CReadAvail(k) => s.consumer.CSized? && CanLoad(s, k)
    case CReadByte => s.consumer.CReading? && |s.consumer.got| < s.consumer.len
    case CAdvance => s.consumer.CReading? && |s.consumer.got| == s.consumer.len
  }

  function Apply(cfg: Config, s: Ring, a: Action): Ring
    requires WordsOk(cfg, s) && Enabled(cfg, s, a)
  {
    match a
    case PStart(data) => s.(producer := PChecking(data))
    case PCheck =>
      var data := s.producer.data;
      if |data| > cfg.Cap() then s.(producer := PIdle) // OversizedWrite
      else if Free(cfg, s) < |data| then s.(producer := PWaiting(data))
      else s.(producer := PFilling(data, 0))
    case PLoad(k) =>
      var data := s.producer.data;
      var s1 := s.(cachedRead := s.readLog[k], seenRead := k);
      if Free(cfg, s1) < |data| then s1.(producer := PIdle) // QueueFull
      else s1.(producer := PFilling(data, 0))
    case PFill =>
      var data, done := s.producer.data, s.producer.done;
      var at := Offset(cfg, s.write) + done;
      if at >= |s.buf| then s.(producer := PWild)
      else s.(buf := s.buf[at := data[done]], producer := PFilling(data, done + 1))
    case PCommit =>
      var data := s.producer.data;
      var w := WrapAdd(s.write, |data|, cfg.Modulus());
      s.(write := w, writeLog := s.writeLog + [w], chunks := s.chunks + [data], producer := PIdle)
    case CQuery(k) => Refreshed(s, k)
    case CBegin(k) =>
      var s1 := Refreshed(s, k);
      var avail := Avail(cfg, s1);
      if avail < cfg.header then s1 else s1.(consumer := CFound(avail))
    case CPeekAvail(k) =>
      var s1 := Refreshed(s, k);
      if cfg.header <= Avail(cfg, s1) then s1.(consumer := CPeeking(s.consumer.avail, []))
      else s1.(consumer := CPanicked)
    case CPeekByte =>
      var got := s.consumer.got;
      var at := Offset(cfg, s.read) + |got|;
      if at >= |s.buf| then s.(consumer := CPanicked)
      else s.(consumer := CPeeking(s.consumer.avail, got + [s.buf[at]]))
    case CSize =>
      var len := cfg.frame(s.consumer.got);
      if s.consumer.avail < len then s.(consumer := CIdle) else s.(consumer := CSized(len))
    case CReadAvail(k) =>
      var s1 := Refreshed(s, k);
      if s.consumer.len <= Avail(cfg, s1) then s1.(consumer := CReading(s.consumer.len, []))
      else s1.(consumer := CPanicked)
    case CReadByte =>
      var got := s.consumer.got;
      var at := Offset(cfg, s.read) + |got|;
      if at >= |s.buf| then s.(consumer := CPanicked)
      else s.(consumer := CReading(s.consumer.len, got + [s.buf[at]]))
    case CAdvance =>
      var r := WrapAdd(s.read, s.consumer.len, cfg.Modulus());
      s.(read := r, readLog := s.readLog + [r], delivered := s.delivered + [s.consumer.got], consumer := CIdle)
  }

  /** What the rest of the program sees of an action. */
  function EventOf(cfg: Config, s: Ring, a: Action): Event
    requires WordsOk(cfg, s) && Enabled(cfg, s, a)
  {
    match a
    case PStart(_) => Start
    case PCheck => if |s.producer.data| > cfg.Cap() then Reject else Tau
    case PLoad(k) => if Apply(cfg, s, a).producer.PIdle? then Reject else Tau
    case PCommit => Commit(s.producer.data)
    case CQuery(k) => Query(Avail(cfg, Refreshed(s, k)))
    case CBegin(k) => Begin(Avail(cfg, Refreshed(s, k)))
    case CSize => if s.consumer.avail < cfg.frame(s.consumer.got) then Short else Tau
    case CAdvance => Read(s.consumer.got)
    case _ => Tau
  }

  /** Whether the consumer's loads in `a` return the latest write position. */
  predicate LoadsLatest(s: Ring, a: Action) {
    (a.CQuery? || a.CBegin?) ==> a.k + 1 == |s.writeLog|
  }

  // ---- Invariant -----------------------------------------------------------

  /** Unbounded position of chunk boundary `i`. */
  function At(s: Ring, i: nat): nat
    requires i <= |s.chunks|
  {
    Pos(s.chunks, i)
  }

  /** Every position field is a chunk boundary reduced modulo the word size. */
  ghost predicate Positions(cfg: Config, s: Ring) {
    var m := cfg.Modulus();
    && s.seenRead <= |s.delivered| <= s.seenWrite <= |s.chunks|
    && s.write == At(s, |s.chunks|) % m
    && s.cachedRead == At(s, s.seenRead) % m
    && s.read == At(s, |s.delivered|) % m
    && s.cachedWrite == At(s, s.seenWrite) % m
    && At(s, |s.chunks|) <= At(s, s.seenRead) + cfg.Cap()
  }

  ghost predicate Logs(cfg: Config, s: Ring) {
    var m := cfg.Modulus();
    && |s.writeLog| == |s.chunks| + 1
    && |s.readLog| == |s.delivered| + 1
    && |s.delivered| <= |s.chunks|
    && (forall i :: 0 <= i < |s.writeLog| ==> s.writeLog[i] == At(s, i) % m)
    && (forall i :: 0 <= i < |s.readLog| ==> s.readLog[i] == At(s, i) % m)
  }

  /** Physical start of the chunk at boundary `i`. */
  function Phys(cfg: Config, s: Ring, i: nat): nat
    requires i <= |s.chunks|
  {
    At(s, i) % cfg.Cap()
  }

  ghost predicate Stored(cfg: Config, s: Ring, i: nat)
    requires i < |s.chunks|
  {
    var o := Phys(cfg, s, i);
    o + |s.chunks[i]| <= |s.buf| && s.buf[o..o + |s.chunks[i]|] == s.chunks[i]
  }

  ghost predicate Contents(cfg: Config, s: Ring) {
    && |s.buf| == 2 * cfg.Cap()
    && |s.delivered| <= |s.chunks|
    && s.delivered == s.chunks[..|s.delivered|]
    && (forall c :: c in s.chunks ==> cfg.Framed(c))
    && (forall i {:trigger Stored(cfg, s, i)} :: |s.delivered| <= i < |s.chunks| ==> Stored(cfg, s, i))
  }

  ghost predicate ProducerOk(cfg: Config, s: Ring)
    requires s.seenRead <= |s.chunks|
  {
    match s.producer
    case PIdle => true
    case PChecking(data) => cfg.Framed(data)
    case PWaiting(data) => cfg.Framed(data)
    case PFilling(data, done) =>
      var o := Phys(cfg, s, |s.chunks|);
      && cfg.Framed(data) && done <= |data|
      && At(s, |s.chunks|) + |data| <= At(s, s.seenRead) + cfg.Cap()
      && o + |data| <= |s.buf| && s.buf[o..o + done] == data[..done]
    case PWild => false
  }

  /** The consumer has seen the whole of the chunk it is working on. */
  ghost predicate Working(s: Ring) {
    |s.delivered| < s.seenWrite <= |s.chunks|
  }

  function Current(s: Ring): Chunk
    requires Working(s)
  {
    s.chunks[|s.delivered|]
  }

  ghost predicate ConsumerOk(cfg: Config, s: Ring) {
    match s.consumer
    case CIdle => true
    case CFound(avail) => Working(s) && |Current(s)| <= avail
    case CPeeking(avail, got) =>
      Working(s) && |Current(s)| <= avail && |got| <= cfg.header <= |Current(s)| && got == Current(s)[..|got|]
    case CSized(len) => Working(s) && len == |Current(s)|
    case CReading(len, got) => Working(s) && len == |Current(s)| && |got| <= len && got == Current(s)[..|got|]
    case CPanicked => false
  }

  ghost predicate Inv(cfg: Config, s: Ring) {
    && WordsOk(cfg, s)
    && Positions(cfg, s)
    && Logs(cfg, s)
    && Contents(cfg, s)
    && ProducerOk(cfg, s)
    && ConsumerOk(cfg, s)
  }

  function Abs(s: Ring): Queue {
    Queue(s.chunks, |s.delivered|, s.seenWrite)
  }
}
