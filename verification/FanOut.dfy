/** Loggers, levels and sinks: which sink gets which record, and what the error
    counters count. */
module FanOut {
  import opened Record

  datatype Sink = Sink(id: nat, level: nat)

  datatype Logger = Logger(name: string, sinks: seq<Sink>)

  /** A decoded record with the level of its call site; `gate` is the logger's level
      at the moment of the call. */
  datatype Rec = Rec(raw: RawRecord, level: nat, gate: nat)

  /** What a sink does when it is given a record. A panic may come from the write
      or from the flush after it. */
  datatype Outcome = Wrote | FlushFailed | WriteFailed | Panicked

  /** One record handed to its logger's sinks, and how each sink would behave. */
  datatype Dispatch = Dispatch(rec: Rec, sinks: seq<Sink>, outcomes: seq<Outcome>)
  {
    predicate Valid() { |outcomes| == |sinks| }

    predicate Accepted(i: nat)
      requires Valid() && i < |sinks|
    {
      rec.level >= sinks[i].level
    }

    /** Sink `i` is called: it accepts the level and nothing before it panicked. */
    predicate Called(i: nat)
      requires Valid() && i < |sinks|
    {
      Accepted(i) && forall j :: 0 <= j < i ==> !(Accepted(j) && outcomes[j].Panicked?)
    }

    /** The sinks called among the first `n`, in order. */
    function CallList(n: nat): seq<(nat, Rec)>
      requires Valid() && n <= |sinks|
    {
      if n == 0 then [] else CallList(n - 1) + if Called(n - 1) then [(sinks[n - 1].id, rec)] else []
    }

    /** How many calls among the first `n` ended in `o`. */
    function Count(n: nat, o: Outcome): nat
      requires Valid() && n <= |sinks|
    {
      if n == 0 then 0 else Count(n - 1, o) + if Called(n - 1) && outcomes[n - 1] == o then 1 else 0
    }

    /** Nothing is called after a panic. */
    lemma {:induction false} AfterPanic(k: nat, n: nat)
      requires Valid() && k < n <= |sinks| && Called(k) && outcomes[k].Panicked?
      ensures CallList(n) == CallList(k + 1)
      ensures forall o :: Count(n, o) == Count(k + 1, o)
      decreases n
    {
      if n > k + 1 {
        AfterPanic(k, n - 1);
        assert !Called(n - 1);
      }
    }

    lemma {:induction false} AtMostOnePanic(n: nat)
      requires Valid() && n <= |sinks|
      ensures Count(n, Panicked) <= 1
      ensures Count(n, Panicked) == 1 <==> exists i :: 0 <= i < n && Called(i) && outcomes[i].Panicked?
    {
      if n > 0 {
        AtMostOnePanic(n - 1);
      }
    }
  }

  // ---- Over a whole run ----------------------------------------------------------

  ghost predicate AllValid(ds: seq<Dispatch>) {
    forall i :: 0 <= i < |ds| ==> ds[i].Valid()
  }

  function AllCalls(ds: seq<Dispatch>): seq<(nat, Rec)>
    requires AllValid(ds)
  {
    if ds == [] then []
    else
      var last := ds[|ds| - 1];
      AllCalls(ds[..|ds| - 1]) + last.CallList(|last.sinks|)
  }

  function Tally(ds: seq<Dispatch>, o: Outcome): nat
    requires AllValid(ds)
  {
    if ds == [] then 0
    else
      var last := ds[|ds| - 1];
      Tally(ds[..|ds| - 1], o) + last.Count(|last.sinks|, o)
  }

  /** The records given to sink `s`, in order. */
  function GivenTo(calls: seq<(nat, Rec)>, s: nat): seq<Rec> {
    if calls == [] then []
    else
      var last := calls[|calls| - 1];
      GivenTo(calls[..|calls| - 1], s) + if last.0 == s then [last.1] else []
  }

  lemma {:induction false} GivenToAppend(a: seq<(nat, Rec)>, b: seq<(nat, Rec)>, s: nat)
    ensures GivenTo(a + b, s) == GivenTo(a, s) + GivenTo(b, s)
    decreases |b|
  {
    if b == [] {
      assert a + b == a;
    } else {
      var init, last := b[..|b| - 1], b[|b| - 1];
      GivenToAppend(a, init, s);
      assert (a + b)[..|a + b| - 1] == a + init;
    }
  }

  function Max(a: nat, b: nat): nat {
    if a >= b then a else b
  }

  /** The promise to the sink at position `i`: it gets the record at or above the
      stricter of the two levels, unless a sink listed earlier panicked on it. */
  ghost predicate Promised(d: Dispatch, i: nat)
    requires d.Valid() && i < |d.sinks|
  {
    && d.rec.level >= Max(d.rec.gate, d.sinks[i].level)
    && forall j :: 0 <= j < i ==> !(d.Accepted(j) && d.outcomes[j].Panicked?)
  }

  /** How often sink `s` is promised the record: once for each time its logger lists it. */
  ghost function Copies(d: Dispatch, s: nat, n: nat): nat
    requires d.Valid() && n <= |d.sinks|
  {
    if n == 0 then 0 else Copies(d, s, n - 1) + if d.sinks[n - 1].id == s && Promised(d, n - 1) then 1 else 0
  }

  function Repeat(r: Rec, n: nat): seq<Rec> {
    if n == 0 then [] else Repeat(r, n - 1) + [r]
  }

  ghost function ReceivedBy(ds: seq<Dispatch>, s: nat): seq<Rec>
    requires AllValid(ds)
  {
    if ds == [] then []
    else
      var last := ds[|ds| - 1];
      ReceivedBy(ds[..|ds| - 1], s) + Repeat(last.rec, Copies(last, s, |last.sinks|))
  }

  lemma {:induction false} CallListFor(d: Dispatch, s: nat, n: nat)
    requires d.Valid() && n <= |d.sinks| && d.rec.level >= d.rec.gate
    ensures GivenTo(d.CallList(n), s) == Repeat(d.rec, Copies(d, s, n))
  {
    if n > 0 {
      CallListFor(d, s, n - 1);
      assert d.Called(n - 1) <==> Promised(d, n - 1);
      if d.Called(n - 1) {
        GivenToAppend(d.CallList(n - 1), [(d.sinks[n - 1].id, d.rec)], s);
        assert GivenTo([(d.sinks[n - 1].id, d.rec)], s) == if d.sinks[n - 1].id == s then [d.rec] else [];
      } else {
        assert d.CallList(n) == d.CallList(n - 1);
      }
    }
  }

  /** Over any run of log calls and dispatches, with any outcomes: a sink's
      `write_record` calls are exactly the dispatched records it was promised,
      in dispatch order. */
  lemma {:induction false} SinkReceivesExactly(ds: seq<Dispatch>, s: nat)
    requires AllValid(ds) && forall i :: 0 <= i < |ds| ==> ds[i].rec.level >= ds[i].rec.gate
    ensures GivenTo(AllCalls(ds), s) == ReceivedBy(ds, s)
  {
    if ds != [] {
      var init, d := ds[..|ds| - 1], ds[|ds| - 1];
      SinkReceivesExactly(init, s);
      CallListFor(d, s, |d.sinks|);
      GivenToAppend(AllCalls(init), d.CallList(|d.sinks|), s);
    }
  }

  lemma ReceivedNext(ds: seq<Dispatch>, d: Dispatch, s: nat)
    requires AllValid(ds) && d.Valid()
    ensures AllValid(ds + [d]) && ReceivedBy(ds + [d], s) == ReceivedBy(ds, s) + Repeat(d.rec, Copies(d, s, |d.sinks|))
  {
    assert (ds + [d])[..|ds|] == ds;
  }

  lemma {:induction false} ReceivedAppend(ds: seq<Dispatch>, es: seq<Dispatch>, s: nat)
    requires AllValid(ds) && AllValid(es)
    ensures AllValid(ds + es) && ReceivedBy(ds + es, s) == ReceivedBy(ds, s) + ReceivedBy(es, s)
    decreases |es|
  {
    if es == [] {
      assert ds + es == ds;
    } else {
      var init, last := es[..|es| - 1], es[|es| - 1];
      ReceivedAppend(ds, init, s);
      ReceivedNext(ds + init, last, s);
      ReceivedNext(init, last, s);
      assert es == init + [last] && ds + es == ds + init + [last];
    }
  }

  /** Dispatch `k` in its place: after all a sink got before, before all it got later. */
  lemma ReceivedAt(ds: seq<Dispatch>, k: nat, s: nat)
    requires AllValid(ds) && k < |ds|
    ensures AllValid(ds[..k]) && AllValid(ds[k + 1..])
    ensures ReceivedBy(ds, s) ==
            ReceivedBy(ds[..k], s) + Repeat(ds[k].rec, Copies(ds[k], s, |ds[k].sinks|)) + ReceivedBy(ds[k + 1..], s)
  {
    assert ds == ds[..k + 1] + ds[k + 1..] && ds[..k + 1][..k] == ds[..k];
    ReceivedAppend(ds[..k + 1], ds[k + 1..], s);
  }

  /** A sink listed once gets each record it was promised once. */
  lemma {:induction false} ListedOnce(d: Dispatch, s: nat, n: nat)
    requires d.Valid() && n <= |d.sinks|
    requires forall i, j :: 0 <= i < j < |d.sinks| ==> d.sinks[i].id != d.sinks[j].id
    ensures Copies(d, s, n) <= 1
    ensures Copies(d, s, n) == 1 <==> exists i :: 0 <= i < n && d.sinks[i].id == s && Promised(d, i)
  {
    if n > 0 {
      ListedOnce(d, s, n - 1);
    }
  }

  /** Each record adds at most one to the panic counter, and does so exactly when
      some sink it reached panicked. */
  lemma PanicsCountRecords(ds: seq<Dispatch>, k: nat)
    requires AllValid(ds) && k < |ds|
    ensures var d := ds[k];
      && Tally(ds[..k + 1], Panicked) == Tally(ds[..k], Panicked) + d.Count(|d.sinks|, Panicked)
      && d.Count(|d.sinks|, Panicked) <= 1
      && (d.Count(|d.sinks|, Panicked) == 1 <==> exists i :: 0 <= i < |d.sinks| && d.Called(i) && d.outcomes[i].Panicked?)
  {
    ds[k].AtMostOnePanic(|ds[k].sinks|);
    assert ds[..k + 1][..k] == ds[..k];
  }

  // ---- The backend object ----------------------------------------------------------

  datatype CreateResult = Created(id: nat) | AlreadyRegistered(existing: nat)

  /** Logger registry, levels, records in flight, and the worker's counters. A
      logger's address is its index in `arena`, which only grows. */
  class Backend {
    var arena: seq<Logger>
    var levels: seq<nat>
    var names: map<string, nat>
    var queue: seq<Rec>
    var calls: seq<(nat, Rec)>
    var writeErrors: nat
    var flushErrors: nat
    var panicCount: nat
    ghost var history: seq<Dispatch>

    /** Every logger is registered under its name, and every record in flight
        carries a logger that is. */
    ghost predicate Registered()
      reads this
    {
      && |levels| == |arena|
      && (forall i :: 0 <= i < |arena| ==> arena[i].name in names && names[arena[i].name] == i)
      && (forall n :: n in names ==> names[n] < |arena| && arena[names[n]].name == n)
      && (forall i :: 0 <= i < |queue| ==> queue[i].raw.logger < |arena| && queue[i].level >= queue[i].gate)
    }

    /** Calls and counters are what the dispatch history says they are. */
    ghost predicate Accounted()
      reads this
    {
      && AllValid(history)
      && (forall i :: 0 <= i < |history| ==> history[i].rec.level >= history[i].rec.gate)
      && calls == AllCalls(history)
      && writeErrors == Tally(history, WriteFailed)
      && flushErrors == Tally(history, FlushFailed)
      && panicCount == Tally(history, Panicked)
    }

    ghost predicate Valid()
      reads this
    {
      Registered() && Accounted()
    }

    constructor ()
      ensures Valid() && arena == [] && queue == [] && history == []
    {
      arena, levels, names, queue, calls := [], [], map[], [], [];
      writeErrors, flushErrors, panicCount, history := 0, 0, 0, [];
    }

    /** The first registration of a name wins; nothing is ever removed or changed. */
    method CreateLogger(name: string, sinks: seq<Sink>, level: nat) returns (r: CreateResult)
      requires Valid()
      modifies this`arena, this`levels, this`names
      ensures Valid() && old(arena) <= arena && (forall n :: n in old(names) ==> n in names && names[n] == old(names)[n])
      ensures r == if name in old(names) then AlreadyRegistered(old(names)[name]) else Created(|old(arena)|)
      ensures r.AlreadyRegistered? ==> arena == old(arena) && names == old(names) && levels == old(levels)
      ensures r.Created? ==> arena == old(arena) + [Logger(name, sinks)] && levels == old(levels) + [level]
    {
      if name in names {
        return AlreadyRegistered(names[name]);
      }
      r := Created(|arena|);
      names := names[name := |arena|];
      arena := arena + [Logger(name, sinks)];
      levels := levels + [level];
    }

    method SetLevel(id: nat, level: nat)
      requires Valid() && id < |arena|
      modifies this`levels
      ensures Valid() && levels == old(levels)[id := level]
    {
      levels := levels[id := level];
    }

    /** The gate of the log macro: below the logger's level, nothing happens. */
    method Log(raw: RawRecord, level: nat)
      requires Valid() && raw.logger < |arena|
      modifies this`queue
      ensures Valid()
      ensures queue == old(queue) + if level >= levels[raw.logger] then [Rec(raw, level, levels[raw.logger])] else []
    {
      if level >= levels[raw.logger] {
        queue := queue + [Rec(raw, level, levels[raw.logger])];
      }
    }

    /** Takes the next record and fans it out to the sinks of its logger. */
    method ProcessNext(outcomes: seq<Outcome>)
      requires Valid() && queue != [] && |outcomes| == |arena[queue[0].raw.logger].sinks|
      modifies this
      ensures Valid() && arena == old(arena) && levels == old(levels) && names == old(names)
      ensures queue == old(queue)[1..]
      ensures history == old(history) + [Dispatch(old(queue)[0], arena[old(queue)[0].raw.logger].sinks, outcomes)]
    {
      var rec := queue[0];
      queue := queue[1..];
      ghost var d := Dispatch(rec, arena[rec.raw.logger].sinks, outcomes);
      FanOut(rec, arena[rec.raw.logger].sinks, outcomes);
      history := history + [d];
      assert history[..|history| - 1] == old(history);
    }

    /** At any time, what a sink was given is what it was promised of the records
        dispatched so far. */
    lemma SinkReceives(s: nat)
      requires Valid()
      ensures GivenTo(calls, s) == ReceivedBy(history, s)
    {
      SinkReceivesExactly(history, s);
    }

    /** `fanout_to_sinks`: a panic ends the loop and is counted once. */
    method FanOut(rec: Rec, sinks: seq<Sink>, outcomes: seq<Outcome>)
      requires |outcomes| == |sinks|
      modifies this`calls, this`writeErrors, this`flushErrors, this`panicCount
      ensures var d := Dispatch(rec, sinks, outcomes);
        && calls == old(calls) + d.CallList(|sinks|)
        && writeErrors == old(writeErrors) + d.Count(|sinks|, WriteFailed)
        && flushErrors == old(flushErrors) + d.Count(|sinks|, FlushFailed)
        && panicCount == old(panicCount) + d.Count(|sinks|, Panicked)
    {
      ghost var d := Dispatch(rec, sinks, outcomes);
      var i := 0;
      while i < |sinks|
        invariant 0 <= i <= |sinks|
        invariant calls == old(calls) + d.CallList(i)
        invariant writeErrors == old(writeErrors) + d.Count(i, WriteFailed)
        invariant flushErrors == old(flushErrors) + d.Count(i, FlushFailed)
        invariant panicCount == old(panicCount) + d.Count(i, Panicked) && d.Count(i, Panicked) == 0
        invariant forall j :: 0 <= j < i ==> !(d.Accepted(j) && outcomes[j].Panicked?)
      {
        if rec.level >= sinks[i].level {
          assert d.Called(i);
          calls := calls + [(sinks[i].id, rec)];
          match outcomes[i] {
            case Wrote =>
            case FlushFailed => flushErrors := flushErrors + 1;
            case WriteFailed => writeErrors := writeErrors + 1;
            case Panicked =>
              panicCount := panicCount + 1;
              d.AfterPanic(i, |sinks|);
              return;
          }
        }
        i := i + 1;
      }
    }
  }
}
