/** Per-request timers: a flag bit, a start time and a running total for each kind of time. */
module RequestStats {
  import opened Options

  datatype TimeType = TotalTime | ClientReadTime | ClientWriteTime | ActorTime | QueueTime

  function Index(t: TimeType): (i: nat)
    ensures i < 5
  {
    match t
    case TotalTime => 0
    case ClientReadTime => 1
    case ClientWriteTime => 2
    case ActorTime => 3
    case QueueTime => 4
  }

  /** A reading of the monotonic clock. */
  datatype Timespec = Timespec(sec: int, nsec: int)

  predicate ClockReading(t: Timespec) { 0 <= t.nsec < 1_000_000_000 }

  function Nanos(t: Timespec): int { 1_000_000_000 * t.sec + t.nsec }

  /** C division truncates toward zero. */
  function TruncDiv(a: int, b: int): int
    requires b > 0
  {
    if a >= 0 then a / b else -((-a) / b)
  }

  /** `get_time_delta`, in microseconds; the difference of the nanosecond parts may be negative. */
  function TimeDelta(start: Timespec, end: Timespec): int {
    1_000_000 * (end.sec - start.sec) + TruncDiv(end.nsec - start.nsec, 1000)
  }

  /** One measurement never runs backwards and is off by less than a microsecond, in either direction. */
  lemma DeltaError(start: Timespec, end: Timespec)
    requires ClockReading(start) && ClockReading(end) && Nanos(start) <= Nanos(end)
    ensures TimeDelta(start, end) >= 0
    ensures -1000 < 1000 * TimeDelta(start, end) - (Nanos(end) - Nanos(start)) < 1000
  {
  }

  /** Truncation toward zero rounds down, except when the nanoseconds borrow: then it rounds up. */
  lemma DeltaRounding(start: Timespec, end: Timespec)
    ensures start.nsec <= end.nsec ==> 1000 * TimeDelta(start, end) <= Nanos(end) - Nanos(start)
    ensures start.nsec >= end.nsec ==> 1000 * TimeDelta(start, end) >= Nanos(end) - Nanos(start)
  {
  }

  // ---------------------------------------------------------------- many measurements

  predicate Measurement(p: (Timespec, Timespec)) {
    ClockReading(p.0) && ClockReading(p.1) && Nanos(p.0) <= Nanos(p.1)
  }

  function TotalMicros(ps: seq<(Timespec, Timespec)>): int {
    if ps == [] then 0 else TotalMicros(ps[..|ps| - 1]) + TimeDelta(ps[|ps| - 1].0, ps[|ps| - 1].1)
  }

  function TrueNanos(ps: seq<(Timespec, Timespec)>): int {
    if ps == [] then 0 else TrueNanos(ps[..|ps| - 1]) + (Nanos(ps[|ps| - 1].1) - Nanos(ps[|ps| - 1].0))
  }

  /** After n >= 1 start/end pairs the total is off by less than n microseconds, and it never decreased. */
  lemma {:induction false} TotalError(ps: seq<(Timespec, Timespec)>)
    requires forall i :: 0 <= i < |ps| ==> Measurement(ps[i])
    ensures ps != [] ==> -1000 * |ps| < 1000 * TotalMicros(ps) - TrueNanos(ps) < 1000 * |ps|
    ensures ps != [] ==> TotalMicros(ps[..|ps| - 1]) <= TotalMicros(ps)
    ensures 0 <= TotalMicros(ps)
  {
    if ps != [] {
      TotalError(ps[..|ps| - 1]);
      assert Measurement(ps[|ps| - 1]);
      DeltaError(ps[|ps| - 1].0, ps[|ps| - 1].1);
    }
  }

  // ---------------------------------------------------------------- the record

  function Bit(t: TimeType): bv8 {
    match t
    case TotalTime => 1
    case ClientReadTime => 2
    case ClientWriteTime => 4
    case ActorTime => 8
    case QueueTime => 16
  }

  /** Each kind has its own bit: setting or clearing one leaves the other flags alone. */
  lemma BitsIndependent(flags: bv8, t: TimeType, u: TimeType)
    ensures (flags | Bit(t)) & Bit(u) != 0 <==> t == u || flags & Bit(u) != 0
    ensures (flags & !Bit(t)) & Bit(u) != 0 <==> t != u && flags & Bit(u) != 0
  {
  }

  /** Each kind has its own slot. */
  lemma IndexInjective(t: TimeType, u: TimeType)
    ensures Index(t) == Index(u) <==> t == u
  {
  }

  /** Writing the slot of one kind leaves those of the others alone. */
  lemma {:induction false} SlotWritten<V>(m: seq<V>, t: TimeType, v: V)
    requires |m| == 5
    ensures forall u: TimeType :: m[Index(t) := v][Index(u)] == if u == t then v else m[Index(u)]
  {
    forall u: TimeType ensures m[Index(t) := v][Index(u)] == if u == t then v else m[Index(u)] {
      IndexInjective(t, u);
    }
  }

  // ---------------------------------------------------------------- interleaved timers

  /** A start or an end of one kind, at a moment. */
  datatype Op = Begin(kind: TimeType, now: Timespec) | End(kind: TimeType, now: Timespec)

  /** When the timer of kind `t` that runs after `ops` was started. */
  function Since(ops: seq<Op>, t: TimeType): Option<Timespec> {
    if ops == [] then None
    else
      var op := ops[|ops| - 1];
      if op.kind != t then Since(ops[..|ops| - 1], t) else if op.Begin? then Some(op.now) else None
  }

  /** The finished measurements of kind `t`: each end with the start of its own kind before it. */
  function PairsOf(ops: seq<Op>, t: TimeType): seq<(Timespec, Timespec)> {
    if ops == [] then []
    else
      var front, op := ops[..|ops| - 1], ops[|ops| - 1];
      if op.End? && op.kind == t && Since(front, t).Some? then PairsOf(front, t) + [(Since(front, t).value, op.now)]
      else PairsOf(front, t)
  }

  /** No kind is started while it runs or ended while it does not. */
  predicate PassesChecks(ops: seq<Op>) {
    ops == [] ||
    var front, op := ops[..|ops| - 1], ops[|ops| - 1];
    PassesChecks(front) && (op.Begin? <==> Since(front, op.kind).None?)
  }

  lemma {:induction false} PrefixPasses(ops: seq<Op>, n: nat)
    requires n <= |ops| && PassesChecks(ops)
    ensures PassesChecks(ops[..n])
    decreases |ops|
  {
    if n < |ops| {
      PrefixPasses(ops[..|ops| - 1], n);
      assert ops[..|ops| - 1][..n] == ops[..n];
    } else {
      assert ops[..n] == ops;
    }
  }

  class PerRequestStats {
    var isTimeSet: bv8
    var start: seq<Timespec>
    var totalMicros: seq<int>

    ghost predicate Valid()
      reads this
    {
      |start| == 5 && |totalMicros| == 5
    }

    /** The kinds being measured right now. */
    predicate Running(t: TimeType)
      reads this`isTimeSet
    {
      isTimeSet & Bit(t) != 0
    }

    /** `per_request_get_time`. */
    function GetTime(t: TimeType): int
      reads this
      requires Valid()
    {
      totalMicros[Index(t)]
    }

    ghost function StartOf(t: TimeType): Timespec
      reads this
      requires Valid()
    {
      start[Index(t)]
    }

    constructor ()
      ensures Valid() && forall t: TimeType :: !Running(t) && GetTime(t) == 0
    {
      isTimeSet := 0;
      start := [Timespec(0, 0), Timespec(0, 0), Timespec(0, 0), Timespec(0, 0), Timespec(0, 0)];
      totalMicros := [0, 0, 0, 0, 0];
    }

    method ClearTime()
      modifies this
      ensures Valid() && forall t: TimeType :: !Running(t) && GetTime(t) == 0
    {
      isTimeSet := 0;
      start := [Timespec(0, 0), Timespec(0, 0), Timespec(0, 0), Timespec(0, 0), Timespec(0, 0)];
      totalMicros := [0, 0, 0, 0, 0];
    }

    /** `per_request_is_time_set`. */
    method IsTimeSet(t: TimeType) returns (isSet: bool)
      ensures isSet == Running(t)
    {
      isSet := isTimeSet & Bit(t) != 0;
    }

    method SetFlag(t: TimeType)
      modifies this`isTimeSet
      ensures forall u: TimeType :: Running(u) <==> u == t || old(Running(u))
    {
      forall u: TimeType { BitsIndependent(isTimeSet, t, u); }
      isTimeSet := isTimeSet | Bit(t);
    }

    method ClearFlag(t: TimeType)
      modifies this`isTimeSet
      ensures forall u: TimeType :: Running(u) <==> u != t && old(Running(u))
    {
      forall u: TimeType { BitsIndependent(isTimeSet, t, u); }
      isTimeSet := isTimeSet & !Bit(t);
    }

    /** Starting a running timer fails the CHECK (`ok` is false and nothing changes). */
    method RecordStart(t: TimeType, now: Timespec) returns (ok: bool)
      requires Valid()
      modifies this
      ensures Valid() && ok == !old(Running(t))
      ensures forall u: TimeType :: Running(u) <==> u == t || old(Running(u))
      ensures forall u: TimeType :: GetTime(u) == old(GetTime(u))
      ensures forall u: TimeType :: StartOf(u) == if ok && u == t then now else old(StartOf(u))
    {
      hide Index, Running;
      var isSet := IsTimeSet(t);
      if isSet { return false; }
      SetFlag(t);
      SlotWritten(start, t, now);
      start := start[Index(t) := now];
      ok := true;
    }

    /** Ending a timer that is not running fails the CHECK; otherwise the elapsed time is added to its total. */
    method RecordEnd(t: TimeType, now: Timespec) returns (ok: bool)
      requires Valid()
      modifies this
      ensures Valid() && ok == old(Running(t))
      ensures forall u: TimeType :: Running(u) <==> u != t && old(Running(u))
      ensures forall u: TimeType :: StartOf(u) == old(StartOf(u))
      ensures forall u: TimeType ::
        GetTime(u) == old(GetTime(u)) + if ok && u == t then TimeDelta(old(StartOf(t)), now) else 0
    {
      hide Index, Running, TimeDelta;
      var isSet := IsTimeSet(t);
      if !isSet { return false; }
      ClearFlag(t);
      var total := totalMicros[Index(t)] + TimeDelta(start[Index(t)], now);
      SlotWritten(totalMicros, t, total);
      totalMicros := totalMicros[Index(t) := total];
      ok := true;
    }

    /** Start/end pairs on a quiet timer add up exactly as `TotalMicros` says, and no other total moves. */
    method MeasureAll(t: TimeType, ps: seq<(Timespec, Timespec)>) returns (ok: bool)
      requires Valid() && !Running(t)
      modifies this
      ensures Valid() && ok && !Running(t)
      ensures forall u: TimeType :: GetTime(u) == old(GetTime(u)) + if u == t then TotalMicros(ps) else 0
    {
      ok := true;
      var i := 0;
      assert ps[..0] == [] && TotalMicros([]) == 0;
      while i < |ps|
        invariant 0 <= i <= |ps| && ok && Valid() && !Running(t)
        invariant forall u: TimeType :: GetTime(u) == old(GetTime(u)) + if u == t then TotalMicros(ps[..i]) else 0
      {
        var started := RecordStart(t, ps[i].0);
        var ended := RecordEnd(t, ps[i].1);
        ok := started && ended;
        assert ps[..i + 1][..i] == ps[..i];
        i := i + 1;
      }
      assert ps[..i] == ps;
    }

    /** What a record that was cleared and then went through `ops` says: each kind its own measurements. */
    ghost predicate Tracks(ops: seq<Op>)
      reads this
    {
      && Valid() && PassesChecks(ops)
      && (forall t: TimeType :: Running(t) <==> Since(ops, t).Some?)
      && (forall t: TimeType :: Running(t) ==> StartOf(t) == Since(ops, t).value)
      && (forall t: TimeType :: GetTime(t) == TotalMicros(PairsOf(ops, t)))
    }

    method Record(op: Op, ghost ops: seq<Op>) returns (ok: bool)
      requires Tracks(ops)
      modifies this
      ensures ok <==> PassesChecks(ops + [op])
      ensures ok ==> Tracks(ops + [op])
    {
      hide Running, GetTime, StartOf, TotalMicros, Since, PairsOf, PassesChecks;
      match op {
        case Begin(t, now) => ok := RecordStart(t, now);
        case End(t, now) => ok := RecordEnd(t, now);
      }
      forall t: TimeType { OpStep(ops, op, t); }
      ChecksStep(ops, op);
    }

    /**
     * Timers of all kinds interleaved in any order, from a cleared record: the CHECKs pass exactly if no kind is
     * started or ended twice in a row, and then every kind has the total of its own measurements, whatever the others
     * did.
     */
    method Replay(ops: seq<Op>) returns (ok: bool)
      requires Valid() && forall t: TimeType :: !Running(t) && GetTime(t) == 0
      modifies this
      ensures ok <==> PassesChecks(ops)
      ensures ok ==> Valid() && forall t: TimeType ::
        (Running(t) <==> Since(ops, t).Some?) && GetTime(t) == TotalMicros(PairsOf(ops, t))
    {
      var i := 0;
      assert ops[..0] == [];
      while i < |ops|
        invariant 0 <= i <= |ops| && Tracks(ops[..i])
      {
        hide Tracks;
        ok := Record(ops[i], ops[..i]);
        assert ops[..i + 1] == ops[..i] + [ops[i]];
        if !ok {
          if PassesChecks(ops) {
            PrefixPasses(ops, i + 1);
          }
          return;
        }
        i := i + 1;
      }
      assert ops[..i] == ops;
      ok := true;
    }
  }

  lemma {:induction false} ChecksStep(ops: seq<Op>, op: Op)
    ensures PassesChecks(ops + [op]) <==> PassesChecks(ops) && (op.Begin? <==> Since(ops, op.kind).None?)
  {
    assert (ops + [op])[..|ops|] == ops;
  }

  /** What one more start or end does to a kind. */
  lemma {:induction false} OpStep(ops: seq<Op>, op: Op, t: TimeType)
    ensures Since(ops + [op], t) ==
            if op.kind != t then Since(ops, t) else if op.Begin? then Some(op.now) else None
    ensures TotalMicros(PairsOf(ops + [op], t)) == TotalMicros(PairsOf(ops, t)) +
            if op.End? && op.kind == t && Since(ops, t).Some? then TimeDelta(Since(ops, t).value, op.now) else 0
  {
    assert (ops + [op])[..|ops|] == ops;
    var ps := PairsOf(ops, t);
    if op.End? && op.kind == t && Since(ops, t).Some? {
      assert (ps + [(Since(ops, t).value, op.now)])[..|ps|] == ps;
    }
  }
}
