/** `compose_update` calls sharing one breaker (src/tools/composeUpdate.ts): each peeks when it starts and records at
    most once later, and the calls may interleave in any way. */
module ConcurrentUpdates {
  import opened RollbackBreakers

  /** A call in flight: its service, whether it overrides the breaker, whether it has recorded a rollback. */
  datatype Call = Call(key: string, override: bool, recorded: bool)

  datatype Event =
    | Start(id: nat, key: string, override: bool, now: int)
    | Record(id: nat, now: int)
    | Finish(id: nat, now: int)

  /** A recorded rollback. */
  datatype Rollback = Rollback(key: string, override: bool, now: int)

  datatype State = State(clock: int, inFlight: map<nat, Call>, records: seq<Rollback>, ops: seq<Op>)

  function Initial(clock: int): State { State(clock, map[], [], []) }

  /** The steps that can happen while at most `k` calls are in flight. */
  ghost predicate Enabled(k: nat, s: State, e: Event) {
    && s.clock <= e.now
    && match e
       case Start(id, _, _, _) => id !in s.inFlight && |s.inFlight| < k
       case Record(id, _) => id in s.inFlight && !s.inFlight[id].recorded
       case Finish(id, _) => id in s.inFlight
  }

  /** Starting peeks unless the call overrides; a tripped peek refuses the call, and then nothing is in flight. */
  function Step(cfg: Config, s: State, e: Event): State {
    match e
    case Start(id, key, override, now) =>
      if override then s.(clock := now, inFlight := s.inFlight[id := Call(key, true, false)])
      else
        var ops := s.ops + [Peek(key, now)];
        var inFlight := if Judge(cfg, ops).tripped then s.inFlight else s.inFlight[id := Call(key, false, false)];
        s.(clock := now, inFlight := inFlight, ops := ops)
    case Record(id, now) =>
      if id !in s.inFlight then s else
        var c := s.inFlight[id];
        s.(clock := now, inFlight := s.inFlight[id := c.(recorded := true)],
           records := s.records + [Rollback(c.key, c.override, now)], ops := s.ops + [Check(c.key, now)])
    case Finish(id, now) => s.(clock := now, inFlight := s.inFlight - {id})
  }

  /** A call that overrides or finds the breaker untripped is in flight from its start and can record one rollback, under
      its service and saying whether it overrode; another one is refused. */
  lemma CallRecords(cfg: Config, k: nat, s: State, id: nat, key: string, override: bool, now: int, later: int)
    requires Enabled(k, s, Start(id, key, override, now)) && now <= later
    ensures
      var started := Step(cfg, s, Start(id, key, override, now));
      var tripped := !override && Judge(cfg, s.ops + [Peek(key, now)]).tripped;
      && (id in started.inFlight <==> !tripped) && started.records == s.records
      && (!tripped ==>
            var recorded := Step(cfg, started, Record(id, later));
            && Enabled(k, started, Record(id, later)) && !Enabled(k, recorded, Record(id, later))
            && recorded.records == s.records + [Rollback(key, override, later)]
            && recorded.ops == started.ops + [Check(key, later)])
  {
    hide Judge;
  }

  function Run(cfg: Config, clock: int, events: seq<Event>): State {
    if events == [] then Initial(clock) else Step(cfg, Run(cfg, clock, events[..|events| - 1]), events[|events| - 1])
  }

  /** A run that never has more than `k` calls in flight. */
  ghost predicate Legal(cfg: Config, k: nat, clock: int, events: seq<Event>) {
    events == [] || (
      var rest := events[..|events| - 1];
      Legal(cfg, k, clock, rest) && Enabled(k, Run(cfg, clock, rest), events[|events| - 1]))
  }

  // ---- Counting ----

  predicate Counts(r: Rollback, key: string, from: int) { r.key == key && !r.override && r.now >= from }

  /** Rollbacks of the service recorded since `from` by calls that did not override. */
  function Recorded(records: seq<Rollback>, key: string, from: int): nat {
    if records == [] then 0
    else Recorded(records[..|records| - 1], key, from) + if Counts(records[|records| - 1], key, from) then 1 else 0
  }

  /** The same within the closed window that starts at `from`. */
  function InWindow(records: seq<Rollback>, key: string, from: int, windowMs: int): nat {
    if records == [] then 0
    else
      var last := records[|records| - 1];
      InWindow(records[..|records| - 1], key, from, windowMs) + if Counts(last, key, from) && last.now <= from + windowMs then 1 else 0
  }

  /** The calls that may still record a rollback of the service without overriding. */
  function Pending(inFlight: map<nat, Call>, key: string): set<nat> {
    set id | id in inFlight && inFlight[id].key == key && !inFlight[id].override && !inFlight[id].recorded
  }

  lemma RecordedPush(records: seq<Rollback>, r: Rollback, key: string, from: int)
    ensures Recorded(records + [r], key, from) == Recorded(records, key, from) + if Counts(r, key, from) then 1 else 0
  {
    assert (records + [r])[..|records|] == records;
  }

  lemma {:induction false} RecordedAntitone(records: seq<Rollback>, key: string, early: int, late: int)
    requires early <= late
    ensures Recorded(records, key, late) <= Recorded(records, key, early)
  {
    if records != [] { RecordedAntitone(records[..|records| - 1], key, early, late); }
  }

  lemma {:induction false} AllInWindow(records: seq<Rollback>, key: string, from: int, windowMs: int)
    requires forall r | r in records :: r.now <= from + windowMs
    ensures InWindow(records, key, from, windowMs) == Recorded(records, key, from)
  {
    if records != [] {
      var rest := records[..|records| - 1];
      assert records == rest + [records[|records| - 1]];
      assert forall r | r in rest :: r in records;
      AllInWindow(rest, key, from, windowMs);
    }
  }

  lemma PendingBound(inFlight: map<nat, Call>, key: string)
    ensures |Pending(inFlight, key)| <= |inFlight|
  {
    SubsetSize(Pending(inFlight, key), inFlight.Keys);
  }

  lemma {:induction false} SubsetSize<T>(a: set<T>, b: set<T>)
    requires a <= b
    ensures |a| <= |b|
  {
    if a != {} {
      var x :| x in a;
      SubsetSize(a - {x}, b - {x});
    }
  }

  // ---- The invariant ----

  /** What the records show of a service, plus what may still be recorded, stays within limit - 1 + k. */
  ghost predicate Bounded(cfg: Config, k: nat, s: State, key: string) {
    forall from | from >= s.clock - cfg.windowMs :: Recorded(s.records, key, from) + |Pending(s.inFlight, key)| <= cfg.limit - 1 + k
  }

  /** Every record is an attempt in the breaker's log, and none is in the future. */
  ghost predicate Logged(s: State, key: string) {
    && (forall from :: Recorded(s.records, key, from) <= CountSince(LogOf(s.ops, key), from))
    && forall r | r in s.records :: r.now <= s.clock
  }

  lemma {:induction false} RunIsLogged(cfg: Config, k: nat, clock: int, events: seq<Event>, key: string)
    requires Legal(cfg, k, clock, events)
    ensures Logged(Run(cfg, clock, events), key)
  {
    if events != [] {
      RunIsLogged(cfg, k, clock, events[..|events| - 1], key);
      StepIsLogged(cfg, k, Run(cfg, clock, events[..|events| - 1]), events[|events| - 1], key);
    }
  }

  lemma StepIsLogged(cfg: Config, k: nat, s: State, e: Event, key: string)
    requires Logged(s, key) && Enabled(k, s, e)
    ensures Logged(Step(cfg, s, e), key)
  {
    hide Judge, Recorded, CountSince, LogOf;
    match e
    case Start(_, _, override, now) =>
      if !override { LogSkips(s.ops, e, key); }
    case Record(id, now) =>
      var c := s.inFlight[id];
      LogPush(s.ops, Check(c.key, now), key);
      forall from ensures
        Recorded(s.records + [Rollback(c.key, c.override, now)], key, from) <= CountSince(LogOf(s.ops + [Check(c.key, now)], key), from)
      {
        RecordedPush(s.records, Rollback(c.key, c.override, now), key, from);
        CountPush(LogOf(s.ops, key), now, from);
        assert LogOf(s.ops, key) + [] == LogOf(s.ops, key);
      }
    case Finish(_, _) =>
  }

  lemma LogSkips(ops: seq<Op>, e: Event, key: string)
    requires e.Start?
    ensures LogOf(ops + [Peek(e.key, e.now)], key) == LogOf(ops, key)
  {
    LogPush(ops, Peek(e.key, e.now), key);
  }

  lemma StartIsBounded(cfg: Config, k: nat, s: State, e: Event, key: string)
    requires cfg.enabled && e.Start? && Logged(s, key) && Bounded(cfg, k, s, key) && Enabled(k, s, e)
    ensures Bounded(cfg, k, Step(cfg, s, e), key)
  {
    hide Recorded, CountSince, LogOf, Judge;
    var t := Step(cfg, s, e);
    forall from | from >= t.clock - cfg.windowMs
      ensures Recorded(t.records, key, from) + |Pending(t.inFlight, key)| <= cfg.limit - 1 + k
    {
      if e.id in t.inFlight && !e.override && e.key == key {
        var ops := s.ops + [Peek(key, e.now)];
        JudgePush(cfg, s.ops, Peek(key, e.now));
        LogSkips(s.ops, e, key);
        RecordedAntitone(s.records, key, e.now - cfg.windowMs, from);
        PendingBound(t.inFlight, key);
      } else {
        assert Pending(t.inFlight, key) == Pending(s.inFlight, key);
      }
    }
  }

  lemma RecordIsBounded(cfg: Config, k: nat, s: State, e: Event, key: string)
    requires e.Record? && Bounded(cfg, k, s, key) && Enabled(k, s, e)
    ensures Bounded(cfg, k, Step(cfg, s, e), key)
  {
    hide Recorded;
    var t := Step(cfg, s, e);
    var c := s.inFlight[e.id];
    forall from | from >= t.clock - cfg.windowMs
      ensures Recorded(t.records, key, from) + |Pending(t.inFlight, key)| <= cfg.limit - 1 + k
    {
      RecordedPush(s.records, Rollback(c.key, c.override, e.now), key, from);
      if c.key == key && !c.override {
        assert Pending(t.inFlight, key) == Pending(s.inFlight, key) - {e.id};
      } else {
        assert Pending(t.inFlight, key) == Pending(s.inFlight, key);
      }
    }
  }

  lemma FinishIsBounded(cfg: Config, k: nat, s: State, e: Event, key: string)
    requires e.Finish? && Bounded(cfg, k, s, key) && Enabled(k, s, e)
    ensures Bounded(cfg, k, Step(cfg, s, e), key)
  {
    hide Recorded;
    var t := Step(cfg, s, e);
    SubsetSize(Pending(t.inFlight, key), Pending(s.inFlight, key));
  }

  /** The invariant holds in every state of every run. */
  lemma {:induction false} RunIsBounded(cfg: Config, k: nat, clock: int, events: seq<Event>, key: string)
    requires cfg.enabled && cfg.limit >= 1 && Legal(cfg, k, clock, events)
    ensures Bounded(cfg, k, Run(cfg, clock, events), key)
  {
    if events == [] {
      assert Pending(map[], key) == {};
    } else {
      var rest, e := events[..|events| - 1], events[|events| - 1];
      var s := Run(cfg, clock, rest);
      RunIsBounded(cfg, k, clock, rest, key);
      RunIsLogged(cfg, k, clock, rest, key);
      hide Bounded, Logged, Step;
      match e
      case Start(_, _, _, _) => StartIsBounded(cfg, k, s, e, key);
      case Record(_, _) => RecordIsBounded(cfg, k, s, e, key);
      case Finish(_, _) => FinishIsBounded(cfg, k, s, e, key);
    }
  }

  /** Under every interleaving, no closed window holds more than limit - 1 + k recorded rollbacks of a service by
      calls that did not override. */
  lemma {:induction false} WindowHolds(cfg: Config, k: nat, clock: int, events: seq<Event>, key: string, from: int)
    requires cfg.enabled && cfg.limit >= 1 && Legal(cfg, k, clock, events)
    ensures InWindow(Run(cfg, clock, events).records, key, from, cfg.windowMs) <= cfg.limit - 1 + k
  {
    if events != [] {
      var rest, e := events[..|events| - 1], events[|events| - 1];
      var s, t := Run(cfg, clock, rest), Run(cfg, clock, events);
      WindowHolds(cfg, k, clock, rest, key, from);
      if e.Record? && e.now <= from + cfg.windowMs {
        RunIsLogged(cfg, k, clock, events, key);
        AllInWindow(t.records, key, from, cfg.windowMs);
        RunIsBounded(cfg, k, clock, events, key);
      } else if e.Record? {
        assert t.records[..|t.records| - 1] == s.records;
      }
    }
  }

  /** Sequential calls never record more than `limit`. */
  lemma SequentialWindow(cfg: Config, clock: int, events: seq<Event>, key: string, from: int)
    requires cfg.enabled && cfg.limit >= 1 && Legal(cfg, 1, clock, events)
    ensures InWindow(Run(cfg, clock, events).records, key, from, cfg.windowMs) <= cfg.limit
  {
    WindowHolds(cfg, 1, clock, events, key, from);
  }
}
