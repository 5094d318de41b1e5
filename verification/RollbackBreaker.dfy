/** The rollback circuit breaker (src/guardrails/rollbackBreaker.ts). */
module RollbackBreakers {

  datatype Config = Config(enabled: bool, limit: int, windowMs: int)

  datatype Verdict = Verdict(tripped: bool, recentCount: nat, limit: int, windowMs: int)

  /** One call of the breaker. */
  datatype Op = Check(key: string, now: int) | Peek(key: string, now: int)

  function CountSince(history: seq<int>, cutoff: int): nat {
    if history == [] then 0
    else CountSince(history[..|history| - 1], cutoff) + if history[|history| - 1] >= cutoff then 1 else 0
  }

  function Prune(history: seq<int>, cutoff: int): seq<int> {
    if history == [] then []
    else Prune(history[..|history| - 1], cutoff) + if history[|history| - 1] >= cutoff then [history[|history| - 1]] else []
  }

  function Get(history: map<string, seq<int>>, key: string): seq<int> { if key in history then history[key] else [] }

  // ---- Never pruned: the reference ----

  /** Every attempt recorded against the key. */
  function LogOf(ops: seq<Op>, key: string): seq<int> {
    if ops == [] then []
    else
      var op := ops[|ops| - 1];
      LogOf(ops[..|ops| - 1], key) + if op.Check? && op.key == key then [op.now] else []
  }

  /** The verdict of the last call, judged on the whole log. */
  function Judge(cfg: Config, ops: seq<Op>): Verdict
    requires ops != []
  {
    var op := ops[|ops| - 1];
    var n := if cfg.enabled then CountSince(LogOf(ops, op.key), op.now - cfg.windowMs) else 0;
    Verdict(cfg.enabled && n >= cfg.limit, n, cfg.limit, cfg.windowMs)
  }

  ghost predicate ClockMovesOn(ops: seq<Op>) { forall i, j | 0 <= i < j < |ops| :: ops[i].now <= ops[j].now }

  // ---- Pruned: what the breaker holds ----

  function Next(cfg: Config, history: map<string, seq<int>>, op: Op): map<string, seq<int>> {
    if !cfg.enabled || op.Peek? then history
    else history[op.key := Prune(Get(history, op.key), op.now - cfg.windowMs) + [op.now]]
  }

  function Held(cfg: Config, ops: seq<Op>): map<string, seq<int>> {
    if ops == [] then map[] else Next(cfg, Held(cfg, ops[..|ops| - 1]), ops[|ops| - 1])
  }

  // ---- Pruning never shows ----

  lemma {:induction false} CountPruned(history: seq<int>, cutoff: int, later: int)
    requires cutoff <= later
    ensures CountSince(Prune(history, cutoff), later) == CountSince(history, later)
  {
    if history != [] {
      var rest, last := history[..|history| - 1], history[|history| - 1];
      CountPruned(rest, cutoff, later);
      if last >= cutoff { assert (Prune(rest, cutoff) + [last])[..|Prune(rest, cutoff)|] == Prune(rest, cutoff); }
      else { assert Prune(rest, cutoff) + [] == Prune(rest, cutoff); }
    }
  }

  lemma CountPush(history: seq<int>, t: int, cutoff: int)
    ensures CountSince(history + [t], cutoff) == CountSince(history, cutoff) + if t >= cutoff then 1 else 0
  {
    assert (history + [t])[..|history|] == history;
  }

  lemma LogPush(ops: seq<Op>, op: Op, key: string)
    ensures LogOf(ops + [op], key) == LogOf(ops, key) + if op.Check? && op.key == key then [op.now] else []
  {
    assert (ops + [op])[..|ops|] == ops;
  }

  lemma HeldPush(cfg: Config, ops: seq<Op>, op: Op)
    ensures Held(cfg, ops + [op]) == Next(cfg, Held(cfg, ops), op)
  {
    assert (ops + [op])[..|ops|] == ops;
  }

  /** What the breaker holds counts like the whole log, for every cutoff a later call can ask about. */
  lemma {:induction false} HeldCountsLikeLog(cfg: Config, ops: seq<Op>, key: string, now: int)
    requires cfg.enabled && ClockMovesOn(ops) && forall op | op in ops :: op.now <= now
    ensures CountSince(Get(Held(cfg, ops), key), now - cfg.windowMs) == CountSince(LogOf(ops, key), now - cfg.windowMs)
  {
    hide Prune, CountSince;
    if ops != [] {
      var rest, op := ops[..|ops| - 1], ops[|ops| - 1];
      HeldCountsLikeLog(cfg, rest, key, now);
      if op.Check? && op.key == key {
        var held, cutoff := Get(Held(cfg, rest), key), op.now - cfg.windowMs;
        CountPush(Prune(held, cutoff), op.now, now - cfg.windowMs);
        CountPruned(held, cutoff, now - cfg.windowMs);
        CountPush(LogOf(rest, key), op.now, now - cfg.windowMs);
      } else {
        assert LogOf(rest, key) + [] == LogOf(rest, key);
      }
    }
  }

  lemma JudgePush(cfg: Config, ops: seq<Op>, op: Op)
    ensures
      var n := if cfg.enabled then CountSince(LogOf(ops + [op], op.key), op.now - cfg.windowMs) else 0;
      Judge(cfg, ops + [op]) == Verdict(cfg.enabled && n >= cfg.limit, n, cfg.limit, cfg.windowMs)
  {
    hide LogOf, CountSince;
  }

  /** One more call at the end, judged on what is held. */
  lemma HeldJudges(cfg: Config, ops: seq<Op>, op: Op)
    requires ClockMovesOn(ops) && forall o | o in ops :: o.now <= op.now
    ensures ClockMovesOn(ops + [op]) && Held(cfg, ops + [op]) == Next(cfg, Held(cfg, ops), op)
    ensures
      var n := if cfg.enabled then CountSince(Get(Held(cfg, ops + [op]), op.key), op.now - cfg.windowMs) else 0;
      Judge(cfg, ops + [op]) == Verdict(cfg.enabled && n >= cfg.limit, n, cfg.limit, cfg.windowMs)
  {
    hide LogOf, CountSince, Held, Next, Judge;
    HeldPush(cfg, ops, op);
    JudgePush(cfg, ops, op);
    forall o | o in ops + [op] ensures o.now <= op.now { assert o in ops || o == op; }
    if cfg.enabled { HeldCountsLikeLog(cfg, ops + [op], op.key, op.now); }
  }

  // ---- The evaluator and the shell ----

  method EvaluateRollbackBreaker(history: seq<int>, now: int, windowMs: int, limit: int) returns (tripped: bool, recentCount: nat)
    ensures recentCount == CountSince(history, now - windowMs) && (tripped <==> recentCount >= limit)
  {
    var cutoff := now - windowMs;
    recentCount := 0;
    assert history[..0] == [];
    for i := 0 to |history|
      invariant recentCount == CountSince(history[..i], cutoff)
    {
      assert history[..i + 1] == history[..i] + [history[i]];
      CountPush(history[..i], history[i], cutoff);
      if history[i] >= cutoff { recentCount := recentCount + 1; }
    }
    assert history[..|history|] == history;
    tripped := recentCount >= limit;
  }

  method FilterRecent(history: seq<int>, cutoff: int) returns (r: seq<int>)
    ensures r == Prune(history, cutoff)
  {
    r := [];
    assert history[..0] == [];
    for i := 0 to |history|
      invariant r == Prune(history[..i], cutoff)
    {
      assert history[..i + 1][..i] == history[..i];
      if history[i] >= cutoff { r := r + [history[i]]; }
    }
    assert history[..|history|] == history;
  }

  class RollbackBreaker {
    const cfg: Config
    var history: map<string, seq<int>>
    /** Every call so far. */
    ghost var trace: seq<Op>

    constructor (cfg: Config)
      ensures this.cfg == cfg && trace == [] && Valid()
    {
      this.cfg, history, trace := cfg, map[], [];
    }

    ghost predicate Valid()
      reads this
    {
      history == Held(cfg, trace) && ClockMovesOn(trace)
    }

    ghost predicate NotBefore(now: int)
      reads this
    {
      forall op | op in trace :: op.now <= now
    }

    method CheckAttempt(key: string, now: int) returns (verdict: Verdict)
      requires Valid() && NotBefore(now)
      modifies this
      ensures Valid() && trace == old(trace) + [Check(key, now)]
      ensures verdict == Judge(cfg, trace)
      ensures !cfg.enabled ==> history == old(history)
    {
      hide CountSince, Prune, Held, Judge, ClockMovesOn;
      trace := trace + [Check(key, now)];
      HeldJudges(cfg, old(trace), Check(key, now));
      if !cfg.enabled { return Verdict(false, 0, cfg.limit, cfg.windowMs); }
      var cutoff := now - cfg.windowMs;
      var pruned := FilterRecent(Get(history, key), cutoff);
      pruned := pruned + [now];
      history := history[key := pruned];
      var tripped, recentCount := EvaluateRollbackBreaker(pruned, now, cfg.windowMs, cfg.limit);
      return Verdict(tripped, recentCount, cfg.limit, cfg.windowMs);
    }

    method PeekAttempt(key: string, now: int) returns (verdict: Verdict)
      requires Valid() && NotBefore(now)
      modifies this`trace
      ensures Valid() && trace == old(trace) + [Peek(key, now)]
      ensures verdict == Judge(cfg, trace)
    {
      hide CountSince, Prune, Held, Judge, ClockMovesOn;
      trace := trace + [Peek(key, now)];
      HeldJudges(cfg, old(trace), Peek(key, now));
      if !cfg.enabled { return Verdict(false, 0, cfg.limit, cfg.windowMs); }
      var tripped, recentCount := EvaluateRollbackBreaker(Get(history, key), now, cfg.windowMs, cfg.limit);
      return Verdict(recentCount >= cfg.limit, recentCount, cfg.limit, cfg.windowMs);
    }
  }

  // ---- What the verdicts guarantee over a run ----

  /** The attempts on the key, between `from` and `from + windowMs` inclusive, that were let through. */
  function Passed(cfg: Config, ops: seq<Op>, key: string, from: int): nat {
    if ops == [] then 0 else
      var op := ops[|ops| - 1];
      Passed(cfg, ops[..|ops| - 1], key, from)
      + if op.Check? && op.key == key && from <= op.now <= from + cfg.windowMs && !Judge(cfg, ops).tripped then 1 else 0
  }

  lemma {:induction false} PassedAreLogged(cfg: Config, ops: seq<Op>, key: string, from: int)
    ensures Passed(cfg, ops, key, from) <= CountSince(LogOf(ops, key), from)
  {
    hide Judge;
    if ops != [] {
      var rest, op := ops[..|ops| - 1], ops[|ops| - 1];
      PassedAreLogged(cfg, rest, key, from);
      if op.Check? && op.key == key {
        CountPush(LogOf(rest, key), op.now, from);
      } else {
        assert LogOf(rest, key) + [] == LogOf(rest, key);
      }
    }
  }

  lemma {:induction false} CountAntitone(history: seq<int>, early: int, late: int)
    requires early <= late
    ensures CountSince(history, late) <= CountSince(history, early)
  {
    if history != [] { CountAntitone(history[..|history| - 1], early, late); }
  }

  /** No closed window lets more than limit - 1 attempts on a key through. */
  lemma {:induction false} WindowBound(cfg: Config, ops: seq<Op>, key: string, from: int)
    requires cfg.enabled && ClockMovesOn(ops)
    ensures Passed(cfg, ops, key, from) <= if cfg.limit >= 1 then cfg.limit - 1 else 0
  {
    hide LogOf, CountSince;
    if ops != [] {
      var rest, op := ops[..|ops| - 1], ops[|ops| - 1];
      WindowBound(cfg, rest, key, from);
      if op.Check? && op.key == key && from <= op.now <= from + cfg.windowMs && !Judge(cfg, ops).tripped {
        PassedAreLogged(cfg, ops, key, from);
        CountAntitone(LogOf(ops, key), op.now - cfg.windowMs, from);
      }
    }
  }

  lemma {:induction false} NothingRecent(history: seq<int>, cutoff: int)
    requires forall t | t in history :: t < cutoff
    ensures CountSince(history, cutoff) == 0
  {
    if history != [] {
      var rest := history[..|history| - 1];
      forall t | t in rest ensures t < cutoff {
        var i :| 0 <= i < |rest| && rest[i] == t;
        assert history[i] == t && history[i] in history;
      }
      assert history[|history| - 1] in history;
      NothingRecent(rest, cutoff);
    }
  }

  lemma {:induction false} LogTimes(ops: seq<Op>, key: string)
    ensures forall t | t in LogOf(ops, key) :: Check(key, t) in ops
  {
    if ops != [] { LogTimes(ops[..|ops| - 1], key); }
  }

  /** After more than a window of silence on the key, the next attempt passes exactly when the limit is at least 2. */
  lemma SilenceForgives(cfg: Config, ops: seq<Op>, key: string, now: int)
    requires cfg.enabled && cfg.windowMs >= 0
    requires forall t | Check(key, t) in ops :: t < now - cfg.windowMs
    ensures Judge(cfg, ops + [Check(key, now)]).tripped <==> cfg.limit < 2
  {
    hide LogOf, CountSince, Judge;
    LogTimes(ops, key);
    NothingRecent(LogOf(ops, key), now - cfg.windowMs);
    JudgePush(cfg, ops, Check(key, now));
    LogPush(ops, Check(key, now), key);
    CountPush(LogOf(ops, key), now, now - cfg.windowMs);
  }

  /** The calls made on one key. */
  function Only(ops: seq<Op>, key: string): seq<Op> {
    if ops == [] then []
    else Only(ops[..|ops| - 1], key) + if ops[|ops| - 1].key == key then [ops[|ops| - 1]] else []
  }

  lemma {:induction false} LogOfOnly(ops: seq<Op>, key: string)
    ensures LogOf(Only(ops, key), key) == LogOf(ops, key)
  {
    if ops != [] {
      var rest, op := ops[..|ops| - 1], ops[|ops| - 1];
      LogOfOnly(rest, key);
      if op.key == key { LogPush(Only(rest, key), op, key); }
      else { assert LogOf(rest, key) + [] == LogOf(rest, key) && Only(rest, key) + [] == Only(rest, key); }
    }
  }

  /** Calls on other keys never change a verdict. */
  lemma OtherKeysNeverMatter(cfg: Config, ops: seq<Op>, op: Op)
    ensures Judge(cfg, ops + [op]) == Judge(cfg, Only(ops, op.key) + [op])
  {
    LogOfOnly(ops, op.key);
    LogPush(ops, op, op.key);
    LogPush(Only(ops, op.key), op, op.key);
  }
}
